/** CalculateSize predicts exactly the number of bytes WriteTo emits. */
module Sizes {
  import opened Seqs
  import opened Wire
  import opened Codec
  import opened Refinement

  /** ComputeStringSize, ComputeUInt64Size, ComputeEnumSize, and 1 for a bool. */
  function ScalarSize(k: Kind, v: Val): nat
    requires InRange(k, v)
  {
    match k
    case Blob => VarintSize(|v.bs|) + |v.bs|
    case Bool => 1
    case _ => VarintSize(Unsigned(v.n))
  }

  function ScalarsSize(k: Kind, vs: seq<Val>): nat
    requires AllIn(k, vs)
  {
    if vs == [] then 0 else 1 + ScalarSize(k, vs[0]) + ScalarsSize(k, vs[1..])
  }

  function PackedSize(k: NumKind, vs: seq<Val>): nat
    requires AllIn(k, vs)
  {
    if vs == [] then 0 else ScalarSize(k, vs[0]) + PackedSize(k, vs[1..])
  }

  /** ComputeMessageSize: the length prefix and the body. */
  function MessageSize(s: Schema, m: Msg): nat
    requires MsgOk(s, m)
    decreases s, 2, 0
  {
    VarintSize(Size(s, m)) + Size(s, m)
  }

  function MessagesSize(s: Schema, ms: seq<Msg>): nat
    requires forall i :: 0 <= i < |ms| ==> MsgOk(s, ms[i])
    decreases s, 3, |ms|
  {
    if ms == [] then 0 else 1 + MessageSize(s, ms[0]) + MessagesSize(s, ms[1..])
  }

  function RecSize(r: Rec): nat {
    VarintSize(Tag(r.num, r.payload)) +
    match r.payload
    case Varint(v) => VarintSize(v)
    case Fixed64(_) => 8
    case Len(bs) => VarintSize(|bs|) + |bs|
    case Fixed32(_) => 4
  }

  function UnknownSize(u: seq<Rec>): nat {
    if u == [] then 0 else RecSize(u[0]) + UnknownSize(u[1..])
  }

  /** What one field adds to `size`; the literal 1 is its tag. */
  function CellSize(c: Cell, x: Cont): nat
    requires CellOk(c, x)
    decreases c, 0, 0
  {
    match c
    case One(_, k) => if x.v == Default(k) then 0 else 1 + ScalarSize(k, x.v)
    case Opt(_, k) => if x.o.None? then 0 else 1 + ScalarSize(k, x.o.value)
    case Sub(_, s) => if x.s.None? then 0 else 1 + MessageSize(s, x.s.value)
    case Rep(_) => ScalarsSize(Blob, x.vs)
    case Pack(_, k) =>
      if x.vs == [] then 0 else 1 + VarintSize(PackedSize(k, x.vs)) + PackedSize(k, x.vs)
    case Msgs(_, s) => MessagesSize(s, x.ms)
    case Alt(arms) =>
      match x
      case PickV(i, v) => 1 + ScalarSize(arms[i].kind, v)
      case PickM(i, m) => 1 + MessageSize(arms[i].msg, m)
      case _ => 0
  }

  /** `size` after the first `n` fields. */
  function PrefixSize(s: Schema, m: Msg, n: nat): nat
    requires MsgOk(s, m) && n <= |s.cells|
    decreases s, 0, n
  {
    if n == 0 then 0 else PrefixSize(s, m, n - 1) + CellSize(s.cells[n - 1], m.cells[n - 1])
  }

  /** CalculateSize(). */
  function Size(s: Schema, m: Msg): nat
    requires MsgOk(s, m)
    decreases s, 1, 0
  {
    PrefixSize(s, m, |s.cells|) + UnknownSize(m.unknown)
  }

  // -------------------------------------------------------------------- proofs

  lemma ScalarSizeIsLength(k: Kind, v: Val)
    requires InRange(k, v)
    ensures ScalarSize(k, v) == |PutBody(ToWire(k, v))|
  {
    if k.Blob? { VarintSizeIsLength(|v.bs|); }
    else { VarintSizeIsLength(Unsigned(v.n)); }
  }

  /** Field numbers up to 15 give tags below 128, which take one byte. */
  lemma TagIsOneByte(num: nat, p: Payload)
    requires num <= 15
    ensures |PutRec(Rec(num, p))| == 1 + |PutBody(p)|
  {
  }

  lemma PutRecsOne(r: Rec)
    ensures PutRecs([r]) == PutRec(r)
  {
    assert PutRecs([r][1..]) == [];
  }

  lemma {:induction false} ScalarsSizeIsLength(num: nat, k: Kind, vs: seq<Val>)
    requires AllIn(k, vs) && num <= 15
    ensures ScalarsSize(k, vs) == |PutRecs(Scalars(num, k, vs))|
  {
    if vs != [] {
      ScalarSizeIsLength(k, vs[0]);
      TagIsOneByte(num, ToWire(k, vs[0]));
      ScalarsSizeIsLength(num, k, vs[1..]);
    }
  }

  lemma {:induction false} PackedSizeIsLength(k: NumKind, vs: seq<Val>)
    requires AllIn(k, vs)
    ensures PackedSize(k, vs) == |PackBytes(k, vs)|
  {
    if vs != [] {
      ScalarSizeIsLength(k, vs[0]);
      PackedSizeIsLength(k, vs[1..]);
    }
  }

  lemma RecSizeIsLength(r: Rec)
    requires RecOk(r)
    ensures RecSize(r) == |PutRec(r)|
  {
    VarintSizeIsLength(Tag(r.num, r.payload));
    match r.payload
    case Varint(v) => VarintSizeIsLength(v);
    case Len(bs) => VarintSizeIsLength(|bs|);
    case _ =>
  }

  lemma {:induction false} UnknownSizeIsLength(u: seq<Rec>)
    requires AllOk(u)
    ensures UnknownSize(u) == |PutRecs(u)|
  {
    if u != [] {
      RecSizeIsLength(u[0]);
      UnknownSizeIsLength(u[1..]);
    }
  }

  lemma LenRecSize(num: nat, bs: seq<byte>)
    requires num <= 15
    ensures |PutRec(Rec(num, Len(bs)))| == 1 + VarintSize(|bs|) + |bs|
  {
    TagIsOneByte(num, Len(bs));
    VarintSizeIsLength(|bs|);
  }

  lemma {:induction false} MessagesSizeIsLength(num: nat, s: Schema, ms: seq<Msg>)
    requires WellFormed(s) && num <= 15 && forall i :: 0 <= i < |ms| ==> MsgOk(s, ms[i])
    ensures MessagesSize(s, ms) == |PutRecs(SubRecs(num, s, ms))|
    decreases s, 2, |ms|
  {
    if ms != [] {
      SizeIsLength(s, ms[0]);
      LenRecSize(num, Bytes(s, ms[0]));
      MessagesSizeIsLength(num, s, ms[1..]);
    }
  }

  lemma {:induction false} CellSizeIsLength(c: Cell, x: Cont)
    requires CellWellFormed(c) && CellOk(c, x)
    ensures CellSize(c, x) == |PutRecs(CellRecs(c, x))|
    decreases c, 0, 0
  {
    if |CellRecs(c, x)| == 1 { PutRecsOne(CellRecs(c, x)[0]); }
    hide MsgOk, WellFormed, Size, Bytes, PutVarint, PutRec;
    match c
    case One(num, k) =>
      ScalarSizeIsLength(k, x.v);
      TagIsOneByte(num, ToWire(k, x.v));
    case Opt(num, k) =>
      if x.o.Some? {
        ScalarSizeIsLength(k, x.o.value);
        TagIsOneByte(num, ToWire(k, x.o.value));
      }
    case Sub(num, s) =>
      if x.s.Some? {
        SizeIsLength(s, x.s.value);
        LenRecSize(num, Bytes(s, x.s.value));
      }
    case Rep(num) => ScalarsSizeIsLength(num, Blob, x.vs);
    case Pack(num, k) =>
      PackedSizeIsLength(k, x.vs);
      LenRecSize(num, PackBytes(k, x.vs));
    case Msgs(num, s) => MessagesSizeIsLength(num, s, x.ms);
    case Alt(arms) =>
      if x.PickV? {
        ScalarSizeIsLength(arms[x.arm].kind, x.pv);
        TagIsOneByte(arms[x.arm].num, ToWire(arms[x.arm].kind, x.pv));
      } else if x.PickM? {
        SizeIsLength(arms[x.arm].msg, x.pm);
        LenRecSize(arms[x.arm].num, Bytes(arms[x.arm].msg, x.pm));
      }
  }

  lemma CellInMessage(s: Schema, m: Msg, k: nat)
    requires WellFormed(s) && MsgOk(s, m) && k < |s.cells|
    ensures |m.cells| == |s.cells| && CellWellFormed(s.cells[k]) && CellOk(s.cells[k], m.cells[k])
  {
    hide CellOk, CellWellFormed, UnknownOk;
  }

  lemma {:induction false} PrefixSizeIsLength(s: Schema, m: Msg, n: nat)
    requires WellFormed(s) && MsgOk(s, m) && n <= |s.cells|
    ensures PrefixSize(s, m, n) == |PutRecs(Prefix(s, m, n))|
    decreases s, 0, n
  {
    hide CellOk, CellSize, CellRecs, CellWellFormed, PutRecs, MsgOk, WellFormed, Prefix, PrefixSize;
    if n == 0 {
      EmptyPrefix(s, m);
    } else {
      CellInMessage(s, m, n - 1);
      NextPrefix(s, m, n);
      PrefixSizeIsLength(s, m, n - 1);
      CellSizeIsLength(s.cells[n - 1], m.cells[n - 1]);
      BothLengths(Prefix(s, m, n - 1), CellRecs(s.cells[n - 1], m.cells[n - 1]));
    }
  }

  lemma BothLengths(a: seq<Rec>, b: seq<Rec>)
    ensures |PutRecs(a + b)| == |PutRecs(a)| + |PutRecs(b)|
  {
    hide PutRecs;
    PutRecsConcat(a, b);
  }

  lemma EmptyPrefix(s: Schema, m: Msg)
    requires MsgOk(s, m)
    ensures PrefixSize(s, m, 0) == |PutRecs(Prefix(s, m, 0))|
  {
    hide MsgOk;
  }

  lemma NextPrefix(s: Schema, m: Msg, n: nat)
    requires MsgOk(s, m) && 0 < n <= |s.cells|
    ensures CellOk(s.cells[n - 1], m.cells[n - 1])
    ensures Prefix(s, m, n) == Prefix(s, m, n - 1) + CellRecs(s.cells[n - 1], m.cells[n - 1])
    ensures PrefixSize(s, m, n) == PrefixSize(s, m, n - 1) + CellSize(s.cells[n - 1], m.cells[n - 1])
  {
    hide CellSize, CellRecs, CellOk, UnknownOk;
  }

  /** For every message tree the predicted size is the number of bytes written. */
  lemma {:induction false} SizeIsLength(s: Schema, m: Msg)
    requires WellFormed(s) && MsgOk(s, m)
    ensures Size(s, m) == |Bytes(s, m)|
    decreases s, 1, 0
  {
    hide CellOk, CellWellFormed, Prefix, PrefixSize, PutRecs;
    PrefixSizeIsLength(s, m, |s.cells|);
    UnknownSizeIsLength(m.unknown);
    PutRecsConcat(Prefix(s, m, |s.cells|), m.unknown);
  }

  /** The size of one more element. */
  lemma {:induction false} MessagesSizeAt(s: Schema, ms: seq<Msg>, n: nat)
    requires n <= |ms| && forall i :: 0 <= i < |ms| ==> MsgOk(s, ms[i])
    ensures MessagesSize(s, ms[..n]) ==
            if n == 0 then 0 else MessagesSize(s, ms[..n - 1]) + 1 + MessageSize(s, ms[n - 1])
    decreases n
  {
    if n > 1 {
      MessagesSizeAt(s, ms[1..], n - 1);
      assert ms[1..][..n - 1] == ms[..n][1..];
      assert ms[1..][..n - 2] == ms[..n - 1][1..];
    }
  }
}
