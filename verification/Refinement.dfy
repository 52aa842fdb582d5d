/** The parser refines the object-level merge.

    Running the parse loop from any state over the bytes WriteTo produced leaves exactly
    the state MergeFrom(other) leaves (`ParseWriteIsMerge`), for every message type.
    Round trips, stability of decoding and injectivity of writing follow.
 */
module Refinement {
  import opened Seqs
  import opened Wire
  import opened Unknown
  import opened Codec
  import opened Merging

  // --------------------------------------------------------------- runs

  function Then(s: Schema, m: Option<Msg>, rs: seq<Rec>): Option<Msg>
    requires m.Some? ==> MsgOk(s, m.value)
    requires AllOk(rs)
  {
    if m.None? then None else Run(s, m.value, rs)
  }

  lemma {:induction false} RunConcat(s: Schema, m: Msg, a: seq<Rec>, b: seq<Rec>)
    requires MsgOk(s, m) && AllOk(a) && AllOk(b)
    ensures AllOk(a + b) && Run(s, m, a + b) == Then(s, Run(s, m, a), b)
    decreases |a|
  {
    hide MsgOk, Step, RecOk;
    if a == [] {
      Unit(b);
    } else {
      Head(a, b);
      var m' := Step(s, m, a[0]);
      if m'.Some? { RunConcat(s, m'.value, a[1..], b); }
    }
  }

  lemma RunSnoc(s: Schema, m: Msg, a: seq<Rec>, r: Rec)
    requires MsgOk(s, m) && AllOk(a) && RecOk(r)
    ensures AllOk(a + [r])
    ensures Run(s, m, a + [r]) == if Run(s, m, a).None? then None else Step(s, Run(s, m, a).value, r)
  {
    RunConcat(s, m, a, [r]);
    if Run(s, m, a).Some? { RunOne(s, Run(s, m, a).value, r); }
  }

  lemma RunOne(s: Schema, m: Msg, r: Rec)
    requires MsgOk(s, m) && RecOk(r)
    ensures Run(s, m, [r]) == Step(s, m, r)
  {
    hide MsgOk, Step;
    var z := Step(s, m, r);
    if z.Some? { assert Run(s, z.value, [r][1..]) == z; }
  }

  /** The records of one field, folded through that field alone. */
  function Fold(c: Cell, x: Cont, rs: seq<Rec>): (z: Option<Cont>)
    requires CellOk(c, x) && AllOk(rs) && forall i :: 0 <= i < |rs| ==> Owns(c, rs[i])
    ensures z.Some? ==> CellOk(c, z.value)
    decreases |rs|
  {
    if rs == [] then Some(x)
    else match CellStep(c, x, rs[0])
      case None => None
      case Some(x') => Fold(c, x', rs[1..])
  }

  lemma FoldOne(c: Cell, x: Cont, r: Rec)
    requires CellOk(c, x) && RecOk(r) && Owns(c, r)
    ensures Fold(c, x, [r]) == CellStep(c, x, r)
  {
    hide CellOk, CellStep, Owns;
    var z := CellStep(c, x, r);
    if z.Some? { assert Fold(c, z.value, [r][1..]) == z; }
  }

  lemma FoldCons(c: Cell, x: Cont, r: Rec, rs: seq<Rec>)
    requires CellOk(c, x) && RecOk(r) && Owns(c, r) && OwnedBy(c, rs)
    ensures OwnedBy(c, [r] + rs)
    ensures Fold(c, x, [r] + rs) == if CellStep(c, x, r).None? then None else Fold(c, CellStep(c, x, r).value, rs)
  {
    hide CellOk, CellStep, Owns, RecOk;
    assert ([r] + rs)[1..] == rs;
  }

  lemma {:induction false} NumsOfOwned(c: Cell, r: Rec)
    requires Owns(c, r)
    ensures r.num in Nums(c)
  {
    if c.Alt? {
      var i := FindArm(c.arms, r, 0).value;
      assert c.arms[i].num == r.num;
    }
  }

  /** Field numbers are distinct, so the switch has one case for a record. */
  lemma OwnerUnique(s: Schema, r: Rec, k: nat)
    requires WellFormed(s) && k < |s.cells| && Owns(s.cells[k], r)
    ensures Owner(s, r) == Some(k)
  {
    NumsOfOwned(s.cells[k], r);
    var j := Owner(s, r).value;
    NumsOfOwned(s.cells[j], r);
  }

  predicate OwnedBy(c: Cell, rs: seq<Rec>) {
    AllOk(rs) && forall i :: 0 <= i < |rs| ==> Owns(c, rs[i])
  }

  /** Records of one field only move that field. */
  lemma {:induction false} RunChunk(s: Schema, m: Msg, rs: seq<Rec>, k: nat)
    requires WellFormed(s) && MsgOk(s, m) && k < |s.cells| && OwnedBy(s.cells[k], rs)
    ensures var x := Fold(s.cells[k], m.cells[k], rs);
            Run(s, m, rs) == if x.None? then None else Some(m.(cells := m.cells[k := x.value]))
    decreases |rs|
  {
    hide CellOk, CellStep, Owns, UnknownOk, WellFormed, RecOk;
    if rs == [] {
      assert m.cells[k := m.cells[k]] == m.cells;
    } else {
      OwnerUnique(s, rs[0], k);
      var x := CellStep(s.cells[k], m.cells[k], rs[0]);
      if x.Some? {
        var m' := m.(cells := m.cells[k := x.value]);
        RunChunk(s, m', rs[1..], k);
        var z := Fold(s.cells[k], x.value, rs[1..]);
        if z.Some? { assert m'.cells[k := z.value] == m.cells[k := z.value]; }
      }
    }
  }

  /** Records under the default label end up in the unknown set. */
  lemma {:induction false} RunUnknown(s: Schema, m: Msg, u: seq<Rec>)
    requires MsgOk(s, m) && AllOk(u) && forall i :: 0 <= i < |u| ==> Owner(s, u[i]).None?
    ensures Run(s, m, u) == Some(m.(unknown := Union(m.unknown, u)))
    decreases |u|
  {
    if u != [] {
      hide CellOk, RecOk, Run;
      var head, last := u[..|u| - 1], u[|u| - 1];
      Last(u);
      RunUnknown(s, m, head);
      RunSnoc(s, m, head, last);
    }
  }

  // --------------------------------------------------------- fields, written and parsed

  lemma Pow32(n: int)
    requires -TWO_31 <= n < TWO_31
    ensures Signed(Enum, Unsigned(n)) == n
  {
    if n < 0 {
      assert Unsigned(n) % TWO_32 == n + TWO_32;
    }
  }

  lemma ScalarRoundTrip(k: Kind, v: Val)
    requires InRange(k, v)
    ensures FromWire(k, ToWire(k, v)) == v
  {
    if k.Enum? { Pow32(v.n); }
  }

  lemma {:induction false} ScalarsFold(num: nat, k: Kind, vs: seq<Val>)
    requires AllIn(k, vs) && 1 <= num <= 15
    ensures AllOk(Scalars(num, k, vs))
    ensures forall i :: 0 <= i < |Scalars(num, k, vs)| ==>
              Scalars(num, k, vs)[i].num == num && Fits(k, Scalars(num, k, vs)[i].payload)
  {
    if vs != [] { ScalarsFold(num, k, vs[1..]); }
  }

  lemma {:induction false} RepFold(num: nat, xs: seq<Val>, vs: seq<Val>)
    requires AllIn(Blob, xs) && AllIn(Blob, vs) && 1 <= num <= 15
    ensures OwnedBy(Rep(num), Scalars(num, Blob, vs))
    ensures Fold(Rep(num), Vs(xs), Scalars(num, Blob, vs)) == Some(Vs(xs + vs))
    decreases |vs|
  {
    ScalarsFold(num, Blob, vs);
    if vs == [] {
      Unit(xs);
    } else {
      RepFold(num, xs + [vs[0]], vs[1..]);
      Cons(vs);
      Assoc(xs, [vs[0]], vs[1..]);
    }
  }

  lemma UnpackStep(k: NumKind, b: seq<byte>, w: nat, n: nat)
    requires GetUInt64(b) == Some(Token(w, n))
    ensures var vs := Unpack(k, b[n..]);
            Unpack(k, b) == if vs.None? then None else Some([FromWire(k, Varint(w))] + vs.value)
  {
    hide GetUInt64, FromWire;
  }

  lemma UnpackUnfold(k: NumKind, w: nat, rest: seq<byte>)
    requires w < TWO_64
    ensures var vs := Unpack(k, rest);
            Unpack(k, PutVarint(w) + rest)
            == if vs.None? then None else Some([FromWire(k, Varint(w))] + vs.value)
  {
    VarintRoundTrip(w, rest);
    VarintAtMostTen(w);
    Parts(PutVarint(w), rest);
    hide PutVarint, GetVarint, FromWire, Unpack;
    UnpackStep(k, PutVarint(w) + rest, w, |PutVarint(w)|);
  }

  lemma {:induction false} PackRoundTrip(k: NumKind, vs: seq<Val>)
    requires AllIn(k, vs)
    ensures Unpack(k, PackBytes(k, vs)) == Some(vs)
  {
    if vs != [] {
      PackRoundTrip(k, vs[1..]);
      UnpackUnfold(k, ToWire(k, vs[0]).v, PackBytes(k, vs[1..]));
      ScalarRoundTrip(k, vs[0]);
      hide PutVarint, FromWire, ToWire;
      Cons(vs);
    }
  }

  lemma {:induction false} SubRecsOwned(num: nat, s: Schema, ms: seq<Msg>)
    requires 1 <= num <= 15 && forall i :: 0 <= i < |ms| ==> MsgOk(s, ms[i])
    ensures OwnedBy(Msgs(num, s), SubRecs(num, s, ms))
    decreases |ms|
  {
    if ms != [] { SubRecsOwned(num, s, ms[1..]); }
  }

  /** WriteTo emits a field only under tags its own case label accepts. */
  lemma {:induction false} CellRecsOwned(c: Cell, x: Cont)
    requires CellWellFormed(c) && CellOk(c, x)
    ensures OwnedBy(c, CellRecs(c, x))
  {
    match c
    case Rep(num) => ScalarsFold(num, Blob, x.vs);
    case Msgs(num, s) => SubRecsOwned(num, s, x.ms);
    case Alt(arms) =>
      if x.PickV? || x.PickM? {
        ArmUnique(arms, CellRecs(c, x)[0], x.arm);
      }
    case _ =>
  }

  lemma ArmUnique(arms: seq<Arm>, r: Rec, i: nat)
    requires ArmsDistinct(arms) && i < |arms| && ArmOwns(arms[i], r)
    ensures FindArm(arms, r, 0) == Some(i)
  {
    assert arms[FindArm(arms, r, 0).value].num == arms[i].num;
  }

  lemma {:induction false} RecsOk(s: Schema, m: Msg, n: nat)
    requires WellFormed(s) && MsgOk(s, m) && n <= |s.cells|
    ensures AllOk(Prefix(s, m, n))
    ensures AllOk(Prefix(s, m, n) + m.unknown)
    decreases n
  {
    if n > 0 {
      RecsOk(s, m, n - 1);
      CellRecsOwned(s.cells[n - 1], m.cells[n - 1]);
    }
  }

  /** The bytes of a message body read back as the records written. */
  lemma BytesRead(s: Schema, m: Msg)
    requires WellFormed(s) && MsgOk(s, m)
    ensures AllOk(Recs(s, m)) && Records(Bytes(s, m)) == Some(Recs(s, m))
  {
    RecsOk(s, m, |s.cells|);
    RecordsRoundTrip(Recs(s, m));
  }

  // ----------------------------------------------------------------- refinement

  /** Parsing what WriteTo emitted for a field does what MergeFrom does to the field. */
  lemma {:induction false} FieldParseWriteIsMerge(c: Cell, x: Cont, y: Cont)
    requires CellWellFormed(c) && CellOk(c, x) && CellOk(c, y)
    ensures OwnedBy(c, CellRecs(c, y))
    ensures Fold(c, x, CellRecs(c, y)) == Some(CellMerge(c, x, y))
    decreases c, 0
  {
    hide RunBytes, Bytes, Merge, MsgOk, FromWire, ToWire, Default;
    CellRecsOwned(c, y);
    match c
    case One(_, k) =>
      if y.v != Default(k) { FoldOne(c, x, CellRecs(c, y)[0]); ScalarRoundTrip(k, y.v); }
    case Opt(_, k) =>
      if y.o.Some? { FoldOne(c, x, CellRecs(c, y)[0]); ScalarRoundTrip(k, y.o.value); }
    case Sub(_, s) =>
      if y.s.Some? {
        FoldOne(c, x, CellRecs(c, y)[0]);
        ParseWriteIsMerge(s, OrEmpty(s, x.s), y.s.value);
      }
    case Rep(num) => RepFold(num, x.vs, y.vs);
    case Pack(_, k) =>
      if y.vs != [] {
        FoldOne(c, x, CellRecs(c, y)[0]);
        PackRoundTrip(k, y.vs);
      } else {
        Unit(x.vs);
      }
    case Msgs(num, s) => ElementsParseWrite(num, s, x.ms, y.ms);
    case Alt(arms) =>
      if y.PickV? {
        FoldOne(c, x, CellRecs(c, y)[0]);
        ArmUnique(arms, CellRecs(c, y)[0], y.arm);
        ScalarRoundTrip(arms[y.arm].kind, y.pv);
      } else if y.PickM? {
        FoldOne(c, x, CellRecs(c, y)[0]);
        ArmUnique(arms, CellRecs(c, y)[0], y.arm);
        ParseWriteIsMerge(arms[y.arm].msg, SubBuilder(arms, x, y.arm), y.pm);
        SubBuilderIsHeld(arms, x, y.arm);
      }
  }

  /** The copy into a fresh sub-builder changes nothing: the default message is a unit. */
  lemma SubBuilderIsHeld(arms: seq<Arm>, x: Cont, i: nat)
    requires i < |arms| && arms[i].MsgArm? && CellOk(Alt(arms), x)
    ensures SubBuilder(arms, x, i) == ArmBase(arms, x, i)
  {
    if x.PickM? && x.arm == i { MergeLeftIdentity(arms[i].msg, x.pm); }
  }

  lemma ListParts(c: Cell, ms: seq<Msg>)
    requires c.Msgs? && CellOk(c, Ms(ms)) && ms != []
    ensures MsgOk(c.msg, ms[0]) && CellOk(c, Ms(ms[1..]))
  {
  }

  /** A written element is parsed into a new object and appended. */
  lemma {:induction false} ElementParseWrite(num: nat, s: Schema, xs: seq<Msg>, m: Msg)
    requires WellFormed(s) && 1 <= num <= 15 && CellOk(Msgs(num, s), Ms(xs)) && MsgOk(s, m)
    ensures CellStep(Msgs(num, s), Ms(xs), Rec(num, Len(Bytes(s, m)))) == Some(Ms(xs + [m]))
    decreases s, 4
  {
    EmptyOk(s);
    ParseWriteIsMerge(s, Empty(s), m);
    MergeLeftIdentity(s, m);
    hide Merge, RunBytes, Bytes, Empty;
  }

  lemma {:induction false} ElementsParseWrite(num: nat, s: Schema, xs: seq<Msg>, ms: seq<Msg>)
    requires WellFormed(s) && 1 <= num <= 15
    requires CellOk(Msgs(num, s), Ms(xs)) && CellOk(Msgs(num, s), Ms(ms))
    ensures OwnedBy(Msgs(num, s), SubRecs(num, s, ms))
    ensures Fold(Msgs(num, s), Ms(xs), SubRecs(num, s, ms)) == Some(Ms(xs + ms))
    decreases s, 5, |ms|
  {
    SubRecsOwned(num, s, ms);
    if ms == [] {
      Unit(xs);
    } else {
      ListParts(Msgs(num, s), ms);
      SubRecsOwned(num, s, ms[1..]);
      ElementParseWrite(num, s, xs, ms[0]);
      ElementsParseWrite(num, s, xs + [ms[0]], ms[1..]);
      hide CellOk, MsgOk, CellStep, Fold, Bytes;
      FoldCons(Msgs(num, s), Ms(xs), Rec(num, Len(Bytes(s, ms[0]))), SubRecs(num, s, ms[1..]));
      Cons(ms);
      Assoc(xs, [ms[0]], ms[1..]);
    }
  }

  /** The state after the first `n` fields of `b` have been merged into `a`. */
  function Midway(s: Schema, a: Msg, b: Msg, n: nat): (m: Msg)
    requires MsgOk(s, a) && MsgOk(s, b) && n <= |s.cells|
    ensures MsgOk(s, m)
  {
    Msg(seq(|s.cells|, i requires 0 <= i < |s.cells| =>
              if i < n then CellMerge(s.cells[i], a.cells[i], b.cells[i]) else a.cells[i]),
        a.unknown)
  }

  lemma {:induction false} PrefixParse(s: Schema, a: Msg, b: Msg, n: nat)
    requires WellFormed(s) && MsgOk(s, a) && MsgOk(s, b) && n <= |s.cells|
    ensures AllOk(Prefix(s, b, n))
    ensures Run(s, a, Prefix(s, b, n)) == Some(Midway(s, a, b, n))
    decreases s, 1, n
  {
    RecsOk(s, b, n);
    hide CellOk, CellMerge, Fold, UnknownOk, CellRecs, CellWellFormed;
    if n == 0 {
      MsgExtensional(Midway(s, a, b, 0), a);
    } else {
      var k := n - 1;
      var m, chunk := Midway(s, a, b, k), CellRecs(s.cells[k], b.cells[k]);
      PrefixParse(s, a, b, k);
      FieldParseWriteIsMerge(s.cells[k], a.cells[k], b.cells[k]);
      assert Run(s, m, chunk) == Some(Midway(s, a, b, n)) by {
        RunChunk(s, m, chunk, k);
        MidwayNext(s, a, b, k);
      }
      assert Prefix(s, b, n) == Prefix(s, b, k) + chunk;
      RunConcat(s, a, Prefix(s, b, k), chunk);
    }
  }

  lemma MidwayNext(s: Schema, a: Msg, b: Msg, k: nat)
    requires MsgOk(s, a) && MsgOk(s, b) && k < |s.cells|
    ensures var m := Midway(s, a, b, k);
            m.cells[k] == a.cells[k]
            && m.(cells := m.cells[k := CellMerge(s.cells[k], a.cells[k], b.cells[k])]) == Midway(s, a, b, k + 1)
  {
    var m := Midway(s, a, b, k);
    MsgExtensional(m.(cells := m.cells[k := CellMerge(s.cells[k], a.cells[k], b.cells[k])]), Midway(s, a, b, k + 1));
  }

  /** From any state, parsing the bytes of `b` is merging `b`. */
  lemma {:induction false} ParseWriteIsMerge(s: Schema, a: Msg, b: Msg)
    requires WellFormed(s) && MsgOk(s, a) && MsgOk(s, b)
    ensures RunBytes(s, a, Bytes(s, b)) == Some(Merge(s, a, b))
    decreases s, 3
  {
    BytesRead(s, b);
    hide CellOk, CellMerge, Prefix, Run, WellFormed;
    var n := |s.cells|;
    PrefixParse(s, a, b, n);
    var m := Midway(s, a, b, n);
    RunConcat(s, a, Prefix(s, b, n), b.unknown);
    RunUnknown(s, m, b.unknown);
    MsgExtensional(m.(unknown := Union(m.unknown, b.unknown)), Merge(s, a, b));
  }

  // ---------------------------------------------------------------- consequences

  /** Parsing what was written into a new object gives the message back. */
  lemma ParseOfWrite(s: Schema, m: Msg)
    requires WellFormed(s) && MsgOk(s, m)
    ensures Parse(s, Bytes(s, m)) == Some(m)
  {
    EmptyOk(s);
    ParseWriteIsMerge(s, Empty(s), m);
    MergeLeftIdentity(s, m);
  }

  lemma WriteInjective(s: Schema, a: Msg, b: Msg)
    requires WellFormed(s) && MsgOk(s, a) && MsgOk(s, b)
    ensures Bytes(s, a) == Bytes(s, b) <==> a == b
  {
    ParseOfWrite(s, a);
    ParseOfWrite(s, b);
  }

  /** Whatever the parser accepts, it accepts again after re-encoding, as the same message. */
  lemma DecodeStable(s: Schema, b: seq<byte>)
    requires WellFormed(s) && Parse(s, b).Some?
    ensures Parse(s, Bytes(s, Parse(s, b).value)) == Parse(s, b)
  {
    ParseOfWrite(s, Parse(s, b).value);
  }

  /** Parsing a concatenation is parsing the parts one after the other. */
  lemma RunBytesConcat(s: Schema, m: Msg, a: seq<byte>, b: seq<byte>)
    requires MsgOk(s, m) && Records(a).Some?
    ensures RunBytes(s, m, a + b) ==
            if RunBytes(s, m, a).None? || Records(b).None? then None
            else RunBytes(s, RunBytes(s, m, a).value, b)
  {
    RecordsConcat(a, b);
    if Records(b).Some? { RunConcat(s, m, Records(a).value, Records(b).value); }
  }

  function MergeAll(s: Schema, m: Msg, ms: seq<Msg>): (r: Msg)
    requires MsgOk(s, m) && forall i :: 0 <= i < |ms| ==> MsgOk(s, ms[i])
    ensures MsgOk(s, r)
    decreases |ms|
  {
    if ms == [] then m else MergeAll(s, Merge(s, m, ms[0]), ms[1..])
  }

  function WriteAll(s: Schema, ms: seq<Msg>): seq<byte>
    requires forall i :: 0 <= i < |ms| ==> MsgOk(s, ms[i])
    decreases |ms|
  {
    if ms == [] then [] else Bytes(s, ms[0]) + WriteAll(s, ms[1..])
  }

  /** Decoding messages written back to back is the left fold of MergeFrom. */
  lemma {:induction false} ParseOfConcatIsFold(s: Schema, m: Msg, ms: seq<Msg>)
    requires WellFormed(s) && MsgOk(s, m) && forall i :: 0 <= i < |ms| ==> MsgOk(s, ms[i])
    ensures RunBytes(s, m, WriteAll(s, ms)) == Some(MergeAll(s, m, ms))
    decreases |ms|
  {
    if ms != [] {
      BytesRead(s, ms[0]);
      ParseWriteIsMerge(s, m, ms[0]);
      ParseOfConcatIsFold(s, Merge(s, m, ms[0]), ms[1..]);
      RunBytesConcat(s, m, Bytes(s, ms[0]), WriteAll(s, ms[1..]));
    }
  }
}
