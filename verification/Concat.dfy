/** Parsing more bytes into a message against parsing them apart and merging: the two agree for
    bytes WriteTo produced, and for arbitrary bytes exactly under the condition given here. */
module Concat {
  import opened Seqs
  import opened Wire
  import opened Unknown
  import opened Codec
  import opened Merging
  import opened Refinement
  import opened Ordering

  // ------------------------------------------------- acceptance has no memory

  /** Whether input is accepted does not depend on what the object holds. */
  lemma {:induction false} AcceptAnywhere(s: Schema, m: Msg, n: Msg, rs: seq<Rec>)
    requires MsgOk(s, m) && MsgOk(s, n) && AllOk(rs)
    ensures Run(s, m, rs).Some? <==> Run(s, n, rs).Some?
    decreases s, 1, |rs|
  {
    if rs != [] {
      var r := rs[0];
      match Owner(s, r)
      case None =>
        InsertOk(s, m.unknown, r);
        InsertOk(s, n.unknown, r);
        AcceptAnywhere(s, m.(unknown := Insert(m.unknown, r)), n.(unknown := Insert(n.unknown, r)), rs[1..]);
      case Some(k) =>
        AcceptStep(s.cells[k], m.cells[k], n.cells[k], r);
        hide CellStep, CellOk, UnknownOk, Owner;
        var x, y := CellStep(s.cells[k], m.cells[k], r), CellStep(s.cells[k], n.cells[k], r);
        if x.Some? {
          AcceptAnywhere(s, Step(s, m, r).value, Step(s, n, r).value, rs[1..]);
        }
    }
  }

  lemma {:induction false} AcceptStep(c: Cell, x: Cont, y: Cont, r: Rec)
    requires CellOk(c, x) && CellOk(c, y) && Owns(c, r) && RecOk(r)
    ensures CellStep(c, x, r).Some? <==> CellStep(c, y, r).Some?
    decreases c, 0, 0
  {
    match c
    case Sub(_, s) =>
      var p := Records(r.payload.bs);
      if p.Some? { AcceptAnywhere(s, OrEmpty(s, x.s), OrEmpty(s, y.s), p.value); }
    case Alt(arms) =>
      var i, p := FindArm(arms, r, 0).value, if r.payload.Len? then Records(r.payload.bs) else None;
      if arms[i].MsgArm? && p.Some? {
        AcceptAnywhere(arms[i].msg, SubBuilder(arms, x, i), SubBuilder(arms, y, i), p.value);
      }
    case _ =>
  }

  lemma {:induction false} AcceptFold(c: Cell, x: Cont, y: Cont, rs: seq<Rec>)
    requires CellOk(c, x) && CellOk(c, y) && OwnedBy(c, rs)
    ensures Fold(c, x, rs).Some? <==> Fold(c, y, rs).Some?
    decreases |rs|
  {
    if rs != [] {
      AcceptStep(c, x, y, rs[0]);
      hide CellStep, CellOk;
      if CellStep(c, x, rs[0]).Some? {
        AcceptFold(c, CellStep(c, x, rs[0]).value, CellStep(c, y, rs[0]).value, rs[1..]);
      }
    }
  }

  // ------------------------------------------------------------ the condition

  /** The records inside the payloads of `rs`, one after the other. */
  function Payloads(rs: seq<Rec>): (ps: seq<Rec>)
    ensures AllOk(ps)
  {
    if rs == [] then []
    else
      var r := rs[|rs| - 1];
      var p := if r.payload.Len? then Records(r.payload.bs) else None;
      Payloads(rs[..|rs| - 1]) + if p.None? then [] else p.value
  }

  function ArmOf(arms: seq<Arm>, r: Rec): (i: nat)
    requires Owns(Alt(arms), r)
    ensures i < |arms| && ArmOwns(arms[i], r)
  {
    FindArm(arms, r, 0).value
  }

  /** Some record of the oneof selects another member than the last record does. */
  predicate Switches(arms: seq<Arm>, rs: seq<Rec>)
    requires OwnedBy(Alt(arms), rs)
  {
    rs != [] && exists j :: 0 <= j < |rs| && ArmOf(arms, rs[j]) != ArmOf(arms, rs[|rs| - 1])
  }

  /** Parsing `rs` into `m` is merging what `rs` parses to. Checked field by field:
      a number that `m` holds is not reset by an explicit zero; inside a sub-message the same
      holds of its records; and a oneof message of `m`'s own member, when the records leave that
      member and come back, is overridden by what follows. */
  predicate Absorbs(s: Schema, m: Msg, rs: seq<Rec>)
    requires MsgOk(s, m) && AllOk(rs)
    decreases s, 1
  {
    forall k :: 0 <= k < |s.cells| ==>
      (SentOwned(s, rs, Some(k));
       CellAbsorbs(s.cells[k], m.cells[k], Sent(s, rs, Some(k))))
  }

  predicate CellAbsorbs(c: Cell, x: Cont, rs: seq<Rec>)
    requires CellOk(c, x) && OwnedBy(c, rs)
    decreases c, 0
  {
    match c
    case One(_, k) => rs == [] || x.v == Default(k) || FromWire(k, rs[|rs| - 1].payload) != Default(k)
    case Sub(_, s) => rs == [] || Absorbs(s, OrEmpty(s, x.s), Payloads(rs))
    case Alt(arms) =>
      rs == [] ||
      (var i := ArmOf(arms, rs[|rs| - 1]);
       arms[i].MsgArm? ==>
         if !Switches(arms, rs) then Absorbs(arms[i].msg, ArmBase(arms, x, i), Payloads(rs))
         else x.PickM? && x.arm == i ==>
                var z := Fold(Alt(arms), Unset, rs);
                z.Some? && z.value.PickM? && z.value.arm == i && Covers(arms[i].msg, x.pm, z.value.pm))
    case _ => true
  }

  // ------------------------------------------------------------- one field

  lemma {:induction false} LastDecides(c: Cell, x: Cont, rs: seq<Rec>)
    requires (c.One? || c.Opt?) && CellOk(c, x) && OwnedBy(c, rs)
    ensures Fold(c, x, rs) ==
            Some(if rs == [] then x
                 else if c.One? then V(FromWire(c.kind, rs[|rs| - 1].payload))
                 else O(Some(FromWire(c.kind, rs[|rs| - 1].payload))))
    decreases |rs|
  {
    if rs != [] { LastDecides(c, CellStep(c, x, rs[0]).value, rs[1..]); }
  }

  /** A repeated field appends what it would have read from nothing. */
  lemma {:induction false} ListsAppend(c: Cell, x: Cont, y: Cont, rs: seq<Rec>)
    requires (c.Rep? || c.Pack? || c.Msgs?) && CellOk(c, x) && CellOk(c, y) && OwnedBy(c, rs)
    requires Fold(c, y, rs).Some?
    ensures Fold(c, CellMerge(c, x, y), rs) == Some(CellMerge(c, x, Fold(c, y, rs).value))
    decreases |rs|
  {
    if rs != [] {
      var z := CellStep(c, y, rs[0]).value;
      ListStep(c, x, y, rs[0]);
      hide CellStep, CellOk, CellMerge;
      ListsAppend(c, x, z, rs[1..]);
    }
  }

  lemma ListStep(c: Cell, x: Cont, y: Cont, r: Rec)
    requires (c.Rep? || c.Pack? || c.Msgs?) && CellOk(c, x) && CellOk(c, y) && Owns(c, r) && RecOk(r)
    requires CellStep(c, y, r).Some?
    ensures CellStep(c, CellMerge(c, x, y), r) == Some(CellMerge(c, x, CellStep(c, y, r).value))
  {
    hide RunBytes, Unpack, FromWire, MsgOk, InRange;
    match c
    case Rep(_) => Assoc(x.vs, y.vs, [B(r.payload.bs)]);
    case Pack(_, k) =>
      if r.payload.Varint? { Assoc(x.vs, y.vs, [FromWire(k, r.payload)]); }
      else { Assoc(x.vs, y.vs, Unpack(k, r.payload.bs).value); }
    case Msgs(_, s) =>
      EmptyOk(s);
      Assoc(x.ms, y.ms, [RunBytes(s, Empty(s), r.payload.bs).value]);
  }

  /** A singular sub-message parses the payloads as one body. */
  lemma {:induction false} SubParses(num: nat, s: Schema, x: Cont, rs: seq<Rec>)
    requires CellOk(Sub(num, s), x) && OwnedBy(Sub(num, s), rs) && Fold(Sub(num, s), x, rs).Some? && rs != []
    ensures var z := Run(s, OrEmpty(s, x.s), Payloads(rs));
            z.Some? && Fold(Sub(num, s), x, rs) == Some(S(z))
    decreases |rs|
  {
    var c, front, r := Sub(num, s), rs[..|rs| - 1], rs[|rs| - 1];
    Last(rs);
    FoldSnoc(c, x, front, r);
    var y := Fold(c, x, front).value;
    assert RunBytes(s, OrEmpty(s, y.s), r.payload.bs).Some?;
    var p := Records(r.payload.bs).value;
    RunConcat(s, OrEmpty(s, x.s), Payloads(front), p);
    if front != [] { SubParses(num, s, x, front); }
    hide Run, MsgOk, Records, CellOk, OrEmpty;
  }

  lemma ScalarArmStep(arms: seq<Arm>, x: Cont, r: Rec)
    requires CellOk(Alt(arms), x) && Owns(Alt(arms), r) && RecOk(r)
    ensures var i, z := ArmOf(arms, r), CellStep(Alt(arms), x, r);
            z.Some? ==> if arms[i].ScalarArm? then z.value.PickV? && z.value.arm == i && z == CellStep(Alt(arms), Unset, r)
                        else z.value.PickM? && z.value.arm == i
  {
    hide RunBytes;
  }

  /** A step that changes the member forgets what was held. */
  lemma OtherArmStep(arms: seq<Arm>, x: Cont, y: Cont, r: Rec)
    requires CellOk(Alt(arms), x) && CellOk(Alt(arms), y) && Owns(Alt(arms), r) && RecOk(r)
    requires (x.PickM? ==> x.arm != ArmOf(arms, r)) && (y.PickM? ==> y.arm != ArmOf(arms, r))
    ensures CellStep(Alt(arms), x, r) == CellStep(Alt(arms), y, r)
  {
    hide RunBytes;
  }

  lemma LastArm(arms: seq<Arm>, x: Cont, rs: seq<Rec>)
    requires CellOk(Alt(arms), x) && OwnedBy(Alt(arms), rs) && rs != [] && Fold(Alt(arms), x, rs).Some?
    ensures var i, z := ArmOf(arms, rs[|rs| - 1]), Fold(Alt(arms), x, rs).value;
            && (arms[i].ScalarArm? ==> z.PickV? && z.arm == i)
            && (arms[i].MsgArm? ==> z.PickM? && z.arm == i)
  {
    var c, front, r := Alt(arms), rs[..|rs| - 1], rs[|rs| - 1];
    Last(rs);
    FoldSnoc(c, x, front, r);
    ScalarArmStep(arms, Fold(c, x, front).value, r);
  }

  /** Records that change the member decode alike from every start. */
  lemma {:induction false} SwitchForgets(arms: seq<Arm>, x: Cont, y: Cont, rs: seq<Rec>)
    requires CellOk(Alt(arms), x) && CellOk(Alt(arms), y) && OwnedBy(Alt(arms), rs)
    requires Switches(arms, rs) && Fold(Alt(arms), x, rs).Some? && Fold(Alt(arms), y, rs).Some?
    ensures Fold(Alt(arms), x, rs) == Fold(Alt(arms), y, rs)
    decreases |rs|
  {
    var c, front, r := Alt(arms), rs[..|rs| - 1], rs[|rs| - 1];
    Last(rs);
    FoldSnoc(c, x, front, r);
    FoldSnoc(c, y, front, r);
    var j :| 0 <= j < |rs| && ArmOf(arms, rs[j]) != ArmOf(arms, r);
    assert front[j] == rs[j] && front != [];
    var i := ArmOf(arms, front[|front| - 1]);
    if i == ArmOf(arms, r) {
      assert Switches(arms, front);
      SwitchForgets(arms, x, y, front);
    } else {
      LastArm(arms, x, front);
      LastArm(arms, y, front);
      OtherArmStep(arms, Fold(c, x, front).value, Fold(c, y, front).value, r);
    }
  }

  /** Without a change of member, the payloads parse as one body into the message held. */
  lemma {:induction false} ArmParses(arms: seq<Arm>, x: Cont, i: nat, rs: seq<Rec>)
    requires CellOk(Alt(arms), x) && OwnedBy(Alt(arms), rs) && rs != [] && Fold(Alt(arms), x, rs).Some?
    requires i < |arms| && arms[i].MsgArm? && forall j :: 0 <= j < |rs| ==> ArmOf(arms, rs[j]) == i
    ensures var z := Run(arms[i].msg, ArmBase(arms, x, i), Payloads(rs));
            z.Some? && Fold(Alt(arms), x, rs) == Some(PickM(i, z.value))
    decreases |rs|
  {
    var c, t, front, r := Alt(arms), arms[i].msg, rs[..|rs| - 1], rs[|rs| - 1];
    Last(rs);
    FoldSnoc(c, x, front, r);
    var y := Fold(c, x, front).value;
    SubBuilderIsHeld(arms, y, i);
    ArmStepIs(arms, y, i, r);
    var p := Records(r.payload.bs).value;
    RunConcat(t, ArmBase(arms, x, i), Payloads(front), p);
    if front != [] { ArmParses(arms, x, i, front); }
    hide Run, MsgOk, Records, CellOk;
  }

  lemma ArmStepIs(arms: seq<Arm>, y: Cont, i: nat, r: Rec)
    requires CellOk(Alt(arms), y) && Owns(Alt(arms), r) && RecOk(r) && ArmOf(arms, r) == i && arms[i].MsgArm?
    requires CellStep(Alt(arms), y, r).Some?
    ensures var p := Records(r.payload.bs);
            && p.Some? && Run(arms[i].msg, ArmBase(arms, y, i), p.value).Some?
            && CellStep(Alt(arms), y, r) == Some(PickM(i, Run(arms[i].msg, ArmBase(arms, y, i), p.value).value))
  {
    SubBuilderIsHeld(arms, y, i);
    hide Run, MsgOk, Records;
  }

  // ------------------------------------------------------------- the theorem

  /** One field: parsing more records is merging what they parse to, exactly when the field
      absorbs them. */
  lemma {:induction false} FieldConcat(c: Cell, x: Cont, rs: seq<Rec>)
    requires CellOk(c, x) && OwnedBy(c, rs) && CellOk(c, CellEmpty(c)) && Fold(c, CellEmpty(c), rs).Some?
    ensures Fold(c, x, rs) == Some(CellMerge(c, x, Fold(c, CellEmpty(c), rs).value)) <==> CellAbsorbs(c, x, rs)
    decreases c, 1
  {
    match c
    case One(_, k) =>
      LastDecides(c, x, rs);
      LastDecides(c, CellEmpty(c), rs);
    case Opt(_, k) =>
      LastDecides(c, x, rs);
      LastDecides(c, CellEmpty(c), rs);
    case Sub(_, s) => SubConcat(c.num, s, x, rs);
    case Alt(arms) => AltConcat(arms, x, rs);
    case _ =>
      CellRightIdentity(c, x);
      ListsAppend(c, x, CellEmpty(c), rs);
  }

  lemma {:induction false} SubConcat(num: nat, s: Schema, x: Cont, rs: seq<Rec>)
    requires CellOk(Sub(num, s), x) && OwnedBy(Sub(num, s), rs) && Fold(Sub(num, s), S(None), rs).Some?
    ensures Fold(Sub(num, s), x, rs) == Some(CellMerge(Sub(num, s), x, Fold(Sub(num, s), S(None), rs).value))
            <==> CellAbsorbs(Sub(num, s), x, rs)
    decreases s, 3
  {
    var c := Sub(num, s);
    if rs != [] {
      AcceptFold(c, S(None), x, rs);
      SubParses(num, s, x, rs);
      SubParses(num, s, S(None), rs);
      EmptyOk(s);
      hide Run, Fold, Merge, MsgOk, Absorbs, Empty;
      BodyConcat(s, OrEmpty(s, x.s), Payloads(rs));
    }
  }

  lemma {:induction false} AltConcat(arms: seq<Arm>, x: Cont, rs: seq<Rec>)
    requires CellOk(Alt(arms), x) && OwnedBy(Alt(arms), rs) && Fold(Alt(arms), Unset, rs).Some?
    ensures Fold(Alt(arms), x, rs) == Some(CellMerge(Alt(arms), x, Fold(Alt(arms), Unset, rs).value))
            <==> CellAbsorbs(Alt(arms), x, rs)
    decreases Alt(arms), 0
  {
    var c := Alt(arms);
    if rs == [] { return; }
    var i := ArmOf(arms, rs[|rs| - 1]);
    AcceptFold(c, Unset, x, rs);
    LastArm(arms, x, rs);
    LastArm(arms, Unset, rs);
    var z := Fold(c, Unset, rs).value;
    if arms[i].ScalarArm? {
      ScalarArmFold(arms, x, rs);
    } else if Switches(arms, rs) {
      SwitchForgets(arms, x, Unset, rs);
      SwitchMerge(arms, x, i, z.pm);
      hide Fold, Merge, MsgOk, Absorbs, Covers;
    } else {
      assert forall j :: 0 <= j < |rs| ==> ArmOf(arms, rs[j]) == i;
      ArmParses(arms, x, i, rs);
      ArmParses(arms, Unset, i, rs);
      hide Run, Fold, Merge, MsgOk, Absorbs, Empty;
      BodyConcat(arms[i].msg, ArmBase(arms, x, i), Payloads(rs));
    }
  }

  lemma ScalarArmFold(arms: seq<Arm>, x: Cont, rs: seq<Rec>)
    requires CellOk(Alt(arms), x) && OwnedBy(Alt(arms), rs) && rs != []
    requires arms[ArmOf(arms, rs[|rs| - 1])].ScalarArm?
    requires Fold(Alt(arms), Unset, rs).Some? && Fold(Alt(arms), x, rs).Some?
    ensures Fold(Alt(arms), x, rs) == Fold(Alt(arms), Unset, rs)
  {
    var c, front, r := Alt(arms), rs[..|rs| - 1], rs[|rs| - 1];
    Last(rs);
    FoldSnoc(c, x, front, r);
    FoldSnoc(c, Unset, front, r);
    ScalarArmStep(arms, Fold(c, x, front).value, r);
    ScalarArmStep(arms, Fold(c, Unset, front).value, r);
  }

  lemma SwitchMerge(arms: seq<Arm>, x: Cont, i: nat, p: Msg)
    requires CellOk(Alt(arms), x) && i < |arms| && arms[i].MsgArm? && MsgOk(arms[i].msg, p)
    ensures CellMerge(Alt(arms), x, PickM(i, p)) == PickM(i, p) <==>
            (x.PickM? && x.arm == i ==> Covers(arms[i].msg, x.pm, p))
  {
    if x.PickM? && x.arm == i { CoversIsAbsorption(arms[i].msg, x.pm, p); }
    else { MergeLeftIdentity(arms[i].msg, p); }
    hide Merge, MsgOk, Covers, Empty;
  }

  /** A body: parsing `rs` into `m` is merging what `rs` parses to, exactly when `m` absorbs it. */
  lemma {:induction false} BodyConcat(s: Schema, m: Msg, rs: seq<Rec>)
    requires MsgOk(s, m) && AllOk(rs) && MsgOk(s, Empty(s)) && Run(s, Empty(s), rs).Some?
    ensures Run(s, m, rs) == Some(Merge(s, m, Run(s, Empty(s), rs).value)) <==> Absorbs(s, m, rs)
    decreases s, 2
  {
    AcceptAnywhere(s, Empty(s), m, rs);
    var z, w := Run(s, Empty(s), rs).value, Run(s, m, rs).value;
    RunByField(s, Empty(s), rs);
    RunByField(s, m, rs);
    assert ByField(s, Empty(s), rs, Some(z)) && ByField(s, m, rs, Some(w));
    forall k | 0 <= k < |s.cells|
      ensures w.cells[k] == Merge(s, m, z).cells[k] <==>
              (SentOwned(s, rs, Some(k)); CellAbsorbs(s.cells[k], m.cells[k], Sent(s, rs, Some(k))))
    {
      SentOwned(s, rs, Some(k));
      CellFacts(s, m, z, k);
      hide Fold, CellAbsorbs, Merge, MsgOk, CellMerge, CellOk, Run;
      assert FieldResult(s, Empty(s), rs, k) == Some(z.cells[k]);
      assert FieldResult(s, m, rs, k) == Some(w.cells[k]);
      FieldConcat(s.cells[k], m.cells[k], Sent(s, rs, Some(k)));
    }
    BodyUnknown(s, m, z, w, Sent(s, rs, None));
    hide CellAbsorbs, MsgOk, Run, Merge;
    AgreeIffEqual(w, Merge(s, m, z));
  }

  lemma CellFacts(s: Schema, m: Msg, z: Msg, k: nat)
    requires MsgOk(s, m) && MsgOk(s, z) && k < |s.cells|
    ensures CellOk(s.cells[k], m.cells[k]) && CellOk(s.cells[k], z.cells[k])
    ensures CellOk(s.cells[k], CellEmpty(s.cells[k])) && Empty(s).cells[k] == CellEmpty(s.cells[k])
    ensures Merge(s, m, z).cells[k] == CellMerge(s.cells[k], m.cells[k], z.cells[k])
  {
    EmptyOk(s);
    hide CellMerge, UnknownOk;
    assert CellOk(s.cells[k], Empty(s).cells[k]);
  }

  lemma BodyUnknown(s: Schema, m: Msg, z: Msg, w: Msg, u: seq<Rec>)
    requires MsgOk(s, m) && MsgOk(s, z) && z.unknown == Union([], u) && w.unknown == Union(m.unknown, u)
    ensures w.unknown == Merge(s, m, z).unknown
  {
    hide CellOk, CellMerge;
    UnionAssociative(m.unknown, [], u);
  }

  /** The parse of a concatenation is the merge of the parses exactly when the first parse
      absorbs the second part. */
  lemma ParseOfConcatExactly(s: Schema, a: seq<byte>, b: seq<byte>)
    requires Parse(s, a).Some? && Parse(s, b).Some?
    ensures Records(b).Some?
    ensures Parse(s, a + b) == Some(Merge(s, Parse(s, a).value, Parse(s, b).value))
            <==> Absorbs(s, Parse(s, a).value, Records(b).value)
  {
    EmptyOk(s);
    RunBytesConcat(s, Empty(s), a, b);
    assert Records(a).Some?;
    var m := Parse(s, a).value;
    hide Run, Records, MsgOk, Merge, Absorbs, Empty;
    BodyConcat(s, m, Records(b).value);
  }
}
