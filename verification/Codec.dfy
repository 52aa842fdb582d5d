/** The template every generated message class instantiates.

    A message class is a list of cells (one per field, one per oneof) and the unknown-field
    set. For each kind of cell the template fixes what the class does when it writes the
    field, when its parse loop meets a record of the field, when it merges another object
    and how many bytes it predicts. The concrete classes in this project are proved to
    compute these functions for their own cell list.
 */
module Codec {
  import opened Wire
  import opened Unknown

  // ------------------------------------------------------------------ scalars

  datatype Kind = U32 | U64 | I64 | Enum | Bool | Blob

  /** The kinds a packed field can have. */
  type NumKind = k: Kind | !k.Blob? witness U32

  /** A scalar value: a number (enum, bool and integers) or bytes (bytes and string). */
  datatype Val = N(n: int) | B(bs: seq<byte>)

  predicate InRange(k: Kind, v: Val) {
    match k
    case Blob => v.B?
    case U32 => v.N? && 0 <= v.n < TWO_32
    case U64 => v.N? && 0 <= v.n < TWO_64
    case I64 => v.N? && -TWO_63 <= v.n < TWO_63
    case Enum => v.N? && -TWO_31 <= v.n < TWO_31
    case Bool => v.N? && 0 <= v.n < 2
  }

  predicate AllIn(k: Kind, vs: seq<Val>) { forall i :: 0 <= i < |vs| ==> InRange(k, vs[i]) }

  function Default(k: Kind): (v: Val)
    ensures InRange(k, v)
  {
    if k.Blob? then B([]) else N(0)
  }

  /** The varint written for a number: negative values are sign-extended to 64 bits. */
  function Unsigned(n: int): nat
    requires -TWO_63 <= n < TWO_64
  {
    if n < 0 then n + TWO_64 else n
  }

  /** The number a scalar field of kind `k` takes from a 64-bit varint. */
  function Signed(k: Kind, w: nat): int
  {
    match k
    case U32 => w % TWO_32
    case I64 => if w >= TWO_63 then w - TWO_64 else w
    case Enum => var x := w % TWO_32; if x >= TWO_31 then x - TWO_32 else x
    case Bool => if w == 0 then 0 else 1
    case _ => w
  }

  function ToWire(k: Kind, v: Val): (p: Payload)
    requires InRange(k, v)
    ensures PayloadOk(p)
    ensures p.Len? <==> k.Blob?
    ensures p.Varint? <==> !k.Blob?
  {
    if k.Blob? then Len(v.bs) else Varint(Unsigned(v.n))
  }

  predicate Fits(k: Kind, p: Payload) { if k.Blob? then p.Len? else p.Varint? }

  function FromWire(k: Kind, p: Payload): (v: Val)
    requires Fits(k, p) && PayloadOk(p)
    ensures InRange(k, v)
  {
    if k.Blob? then B(p.bs) else N(Signed(k, p.v))
  }

  // ------------------------------------------------------------------ schemas

  datatype Cell =
    | One(num: nat, kind: Kind)         // implicit presence: absent when default
    | Opt(num: nat, kind: Kind)         // explicit presence: a bit of _hasBits0
    | Sub(num: nat, msg: Schema)        // singular sub-message, merged in place
    | Rep(num: nat)                     // repeated string or bytes
    | Pack(num: nat, elem: NumKind)     // repeated number, packed or not
    | Msgs(num: nat, msg: Schema)       // repeated sub-message
    | Alt(arms: seq<Arm>)               // oneof

  datatype Arm = ScalarArm(num: nat, kind: Kind) | MsgArm(num: nat, msg: Schema)

  datatype Schema = Schema(cells: seq<Cell>)

  // ------------------------------------------------------------------- values

  datatype Cont =
    | V(v: Val)
    | O(o: Option<Val>)
    | S(s: Option<Msg>)
    | Vs(vs: seq<Val>)
    | Ms(ms: seq<Msg>)
    | Unset
    | PickV(arm: nat, pv: Val)
    | PickM(arm: nat, pm: Msg)

  datatype Msg = Msg(cells: seq<Cont>, unknown: seq<Rec>)

  // -------------------------------------------------------- dispatch on a tag

  predicate ArmOwns(a: Arm, r: Rec) {
    r.num == a.num && (if a.ScalarArm? then Fits(a.kind, r.payload) else r.payload.Len?)
  }

  /** Whether the record's tag is one of the tags the field's case label lists. */
  predicate Owns(c: Cell, r: Rec) {
    match c
    case One(num, k) => r.num == num && Fits(k, r.payload)
    case Opt(num, k) => r.num == num && Fits(k, r.payload)
    case Sub(num, _) => r.num == num && r.payload.Len?
    case Rep(num) => r.num == num && r.payload.Len?
    case Pack(num, k) => r.num == num && (r.payload.Len? || r.payload.Varint?)
    case Msgs(num, _) => r.num == num && r.payload.Len?
    case Alt(arms) => FindArm(arms, r, 0).Some?
  }

  function FindArm(arms: seq<Arm>, r: Rec, i: nat): (k: Option<nat>)
    requires i <= |arms|
    ensures k.Some? ==> i <= k.value < |arms| && ArmOwns(arms[k.value], r)
    ensures k.Some? ==> forall j :: i <= j < k.value ==> !ArmOwns(arms[j], r)
    ensures k.None? ==> forall j :: i <= j < |arms| ==> !ArmOwns(arms[j], r)
    decreases |arms| - i
  {
    if i == |arms| then None
    else if ArmOwns(arms[i], r) then Some(i)
    else FindArm(arms, r, i + 1)
  }

  function FindCell(cells: seq<Cell>, r: Rec, i: nat): (k: Option<nat>)
    requires i <= |cells|
    ensures k.Some? ==> i <= k.value < |cells| && Owns(cells[k.value], r)
    ensures k.Some? ==> forall j :: i <= j < k.value ==> !Owns(cells[j], r)
    ensures k.None? ==> forall j :: i <= j < |cells| ==> !Owns(cells[j], r)
    decreases |cells| - i
  {
    if i == |cells| then None
    else if Owns(cells[i], r) then Some(i)
    else FindCell(cells, r, i + 1)
  }

  /** The cell the parse loop's switch sends a record to; None is the default label. */
  function Owner(s: Schema, r: Rec): (k: Option<nat>)
    ensures k.Some? ==> k.value < |s.cells| && Owns(s.cells[k.value], r)
    ensures k.None? ==> forall j :: 0 <= j < |s.cells| ==> !Owns(s.cells[j], r)
  {
    FindCell(s.cells, r, 0)
  }

  // -------------------------------------------------------- well-formed values

  predicate UnknownOk(s: Schema, u: seq<Rec>) {
    Listed(u) && AllOk(u) && forall i :: 0 <= i < |u| ==> Owner(s, u[i]).None?
  }

  predicate CellOk(c: Cell, x: Cont)
    decreases c
  {
    match c
    case One(_, k) => x.V? && InRange(k, x.v)
    case Opt(_, k) => x.O? && (x.o.Some? ==> InRange(k, x.o.value))
    case Sub(_, s) => x.S? && (x.s.Some? ==> MsgOk(s, x.s.value))
    case Rep(_) => x.Vs? && AllIn(Blob, x.vs)
    case Pack(_, k) => x.Vs? && AllIn(k, x.vs)
    case Msgs(_, s) => x.Ms? && forall i :: 0 <= i < |x.ms| ==> MsgOk(s, x.ms[i])
    case Alt(arms) =>
      || x.Unset?
      || (x.PickV? && x.arm < |arms| && arms[x.arm].ScalarArm? && InRange(arms[x.arm].kind, x.pv))
      || (x.PickM? && x.arm < |arms| && arms[x.arm].MsgArm? && MsgOk(arms[x.arm].msg, x.pm))
  }

  /** A value the class can hold: fields in range and no unknown record the switch handles. */
  predicate MsgOk(s: Schema, m: Msg)
    decreases s
  {
    && |m.cells| == |s.cells|
    && (forall i :: 0 <= i < |s.cells| ==> CellOk(s.cells[i], m.cells[i]))
    && UnknownOk(s, m.unknown)
  }

  function CellEmpty(c: Cell): Cont {
    match c
    case One(_, k) => V(Default(k))
    case Opt(_, _) => O(None)
    case Sub(_, _) => S(None)
    case Rep(_) => Vs([])
    case Pack(_, _) => Vs([])
    case Msgs(_, _) => Ms([])
    case Alt(_) => Unset
  }

  /** What the parameterless constructor builds. */
  function Empty(s: Schema): Msg {
    Msg(seq(|s.cells|, i requires 0 <= i < |s.cells| => CellEmpty(s.cells[i])), [])
  }

  // ------------------------------------------------------------- object merge

  function CellMerge(c: Cell, x: Cont, y: Cont): (z: Cont)
    requires CellOk(c, x) && CellOk(c, y)
    ensures CellOk(c, z)
    decreases c, 0
  {
    match c
    case One(_, k) => if y.v == Default(k) then x else y
    case Opt(_, _) => if y.o.None? then x else y
    case Sub(_, s) => if y.s.None? then x else S(Some(Merge(s, OrEmpty(s, x.s), y.s.value)))
    case Rep(_) => Vs(x.vs + y.vs)
    case Pack(_, _) => Vs(x.vs + y.vs)
    case Msgs(_, _) => Ms(x.ms + y.ms)
    case Alt(arms) =>
      if y.Unset? then x
      else if y.PickV? then y
      else PickM(y.arm, Merge(arms[y.arm].msg, ArmBase(arms, x, y.arm), y.pm))
  }

  function OrEmpty(s: Schema, m: Option<Msg>): (r: Msg)
    requires m.Some? ==> MsgOk(s, m.value)
    ensures MsgOk(s, r)
  {
    if m.None? then (EmptyOk(s); Empty(s)) else m.value
  }

  /** The sub-message a oneof already holds for this arm, or a new one. */
  function ArmBase(arms: seq<Arm>, x: Cont, arm: nat): (r: Msg)
    requires arm < |arms| && arms[arm].MsgArm?
    requires CellOk(Alt(arms), x)
    ensures MsgOk(arms[arm].msg, r)
  {
    if x.PickM? && x.arm == arm then x.pm else (EmptyOk(arms[arm].msg); Empty(arms[arm].msg))
  }

  lemma EmptyOk(s: Schema)
    ensures MsgOk(s, Empty(s))
  {
  }

  /** MergeFrom(other). */
  function Merge(s: Schema, a: Msg, b: Msg): (m: Msg)
    requires MsgOk(s, a) && MsgOk(s, b)
    ensures MsgOk(s, m)
    decreases s, 1
  {
    UnionOk(s, a.unknown, b.unknown);
    Msg(seq(|s.cells|, i requires 0 <= i < |s.cells| => CellMerge(s.cells[i], a.cells[i], b.cells[i])),
        Union(a.unknown, b.unknown))
  }

  lemma UnionOk(s: Schema, u: seq<Rec>, v: seq<Rec>)
    requires UnknownOk(s, u) && UnknownOk(s, v)
    ensures UnknownOk(s, Union(u, v))
  {
    UnionListed(u, v);
    forall i | 0 <= i < |Union(u, v)| ensures RecOk(Union(u, v)[i]) && Owner(s, Union(u, v)[i]).None? {
      UnionMembers(u, v, Union(u, v)[i]);
    }
  }

  // ------------------------------------------------------------------ writing

  function Scalars(num: nat, k: Kind, vs: seq<Val>): seq<Rec>
    requires AllIn(k, vs)
  {
    if vs == [] then [] else [Rec(num, ToWire(k, vs[0]))] + Scalars(num, k, vs[1..])
  }

  function PackBytes(k: NumKind, vs: seq<Val>): seq<byte>
    requires AllIn(k, vs)
  {
    if vs == [] then [] else PutBody(ToWire(k, vs[0])) + PackBytes(k, vs[1..])
  }

  function SubRecs(num: nat, s: Schema, ms: seq<Msg>): seq<Rec>
    requires forall i :: 0 <= i < |ms| ==> MsgOk(s, ms[i])
    decreases s, 3, |ms|
  {
    if ms == [] then [] else [Rec(num, Len(Bytes(s, ms[0])))] + SubRecs(num, s, ms[1..])
  }

  /** The records WriteTo emits for one field. */
  function CellRecs(c: Cell, x: Cont): seq<Rec>
    requires CellOk(c, x)
    decreases c, 0, 0
  {
    match c
    case One(num, k) => if x.v == Default(k) then [] else [Rec(num, ToWire(k, x.v))]
    case Opt(num, k) => if x.o.None? then [] else [Rec(num, ToWire(k, x.o.value))]
    case Sub(num, s) => if x.s.None? then [] else [Rec(num, Len(Bytes(s, x.s.value)))]
    case Rep(num) => Scalars(num, Blob, x.vs)
    case Pack(num, k) => if x.vs == [] then [] else [Rec(num, Len(PackBytes(k, x.vs)))]
    case Msgs(num, s) => SubRecs(num, s, x.ms)
    case Alt(arms) =>
      match x
      case PickV(i, v) => [Rec(arms[i].num, ToWire(arms[i].kind, v))]
      case PickM(i, m) => [Rec(arms[i].num, Len(Bytes(arms[i].msg, m)))]
      case _ => []
  }

  /** The records of the first `n` fields. */
  function Prefix(s: Schema, m: Msg, n: nat): seq<Rec>
    requires MsgOk(s, m) && n <= |s.cells|
    decreases s, 0, n
  {
    if n == 0 then [] else Prefix(s, m, n - 1) + CellRecs(s.cells[n - 1], m.cells[n - 1])
  }

  function Recs(s: Schema, m: Msg): seq<Rec>
    requires MsgOk(s, m)
    decreases s, 1, 0
  {
    Prefix(s, m, |s.cells|) + m.unknown
  }

  /** The bytes WriteTo appends to the output stream. */
  function Bytes(s: Schema, m: Msg): seq<byte>
    requires MsgOk(s, m)
    decreases s, 2, 0
  {
    PutRecs(Recs(s, m))
  }

  // ------------------------------------------------------------------ parsing

  /** The numbers of a packed record. */
  function Unpack(k: NumKind, b: seq<byte>): (vs: Option<seq<Val>>)
    ensures vs.Some? ==> AllIn(k, vs.value)
  {
    if b == [] then Some([])
    else match GetUInt64(b)
      case None => None
      case Some(Token(w, n)) =>
        match Unpack(k, b[n..])
        case None => None
        case Some(vs) => Some([FromWire(k, Varint(w))] + vs)
  }

  /** One pass of the parse loop on a record of this field; None rejects the input. */
  function CellStep(c: Cell, x: Cont, r: Rec): (z: Option<Cont>)
    requires CellOk(c, x) && Owns(c, r) && RecOk(r)
    ensures z.Some? ==> CellOk(c, z.value)
    decreases c, 0, 0
  {
    match c
    case One(_, k) => Some(V(FromWire(k, r.payload)))
    case Opt(_, k) => Some(O(Some(FromWire(k, r.payload))))
    case Sub(_, s) =>
      (match RunBytes(s, OrEmpty(s, x.s), r.payload.bs)
       case None => None
       case Some(m) => Some(S(Some(m))))
    case Rep(_) => Some(Vs(x.vs + [B(r.payload.bs)]))
    case Pack(_, k) =>
      if r.payload.Varint? then Some(Vs(x.vs + [FromWire(k, r.payload)]))
      else (match Unpack(k, r.payload.bs)
            case None => None
            case Some(vs) => Some(Vs(x.vs + vs)))
    case Msgs(_, s) =>
      (EmptyOk(s);
       match RunBytes(s, Empty(s), r.payload.bs)
       case None => None
       case Some(m) => Some(Ms(x.ms + [m])))
    case Alt(arms) =>
      var i := FindArm(arms, r, 0).value;
      if arms[i].ScalarArm? then Some(PickV(i, FromWire(arms[i].kind, r.payload)))
      else
        (match RunBytes(arms[i].msg, SubBuilder(arms, x, i), r.payload.bs)
         case None => None
         case Some(m) => Some(PickM(i, m)))
  }

  /** The fresh sub-builder of a oneof message: new, then merged from what the oneof holds. */
  function SubBuilder(arms: seq<Arm>, x: Cont, i: nat): (m: Msg)
    requires i < |arms| && arms[i].MsgArm? && CellOk(Alt(arms), x)
    ensures MsgOk(arms[i].msg, m)
  {
    EmptyOk(arms[i].msg);
    if x.PickM? && x.arm == i then Merge(arms[i].msg, Empty(arms[i].msg), x.pm) else Empty(arms[i].msg)
  }

  function Step(s: Schema, m: Msg, r: Rec): (z: Option<Msg>)
    requires MsgOk(s, m) && RecOk(r)
    ensures z.Some? ==> MsgOk(s, z.value)
    decreases s, 0, 0
  {
    match Owner(s, r)
    case None =>
      InsertOk(s, m.unknown, r);
      Some(m.(unknown := Insert(m.unknown, r)))
    case Some(k) =>
      match CellStep(s.cells[k], m.cells[k], r)
      case None => None
      case Some(x) => Some(m.(cells := m.cells[k := x]))
  }

  lemma InsertOk(s: Schema, u: seq<Rec>, r: Rec)
    requires UnknownOk(s, u) && RecOk(r) && Owner(s, r).None?
    ensures UnknownOk(s, Insert(u, r))
  {
    InsertListed(u, r);
    forall i | 0 <= i < |Insert(u, r)| ensures RecOk(Insert(u, r)[i]) && Owner(s, Insert(u, r)[i]).None? {
      InsertMembers(u, r, Insert(u, r)[i]);
    }
  }

  /** The parse loop over the records of a body. */
  function Run(s: Schema, m: Msg, rs: seq<Rec>): (z: Option<Msg>)
    requires MsgOk(s, m) && AllOk(rs)
    ensures z.Some? ==> MsgOk(s, z.value)
    decreases s, 1, |rs|
  {
    if rs == [] then Some(m)
    else match Step(s, m, rs[0])
      case None => None
      case Some(m') => Run(s, m', rs[1..])
  }

  /** MergeFrom(input): the parse loop over the bytes of a body. */
  function RunBytes(s: Schema, m: Msg, b: seq<byte>): (z: Option<Msg>)
    requires MsgOk(s, m)
    ensures z.Some? ==> MsgOk(s, z.value)
    decreases s, 2, 0
  {
    match Records(b)
    case None => None
    case Some(rs) => Run(s, m, rs)
  }

  /** Parser.ParseFrom: the parse loop from a new object. */
  function Parse(s: Schema, b: seq<byte>): (z: Option<Msg>)
    ensures z.Some? ==> MsgOk(s, z.value)
  {
    EmptyOk(s);
    RunBytes(s, Empty(s), b)
  }

  // ------------------------------------------------------------ well-formed schemas

  function Nums(c: Cell): set<nat> {
    match c
    case Alt(arms) => set i | 0 <= i < |arms| :: arms[i].num
    case _ => {c.num}
  }

  predicate ArmsDistinct(arms: seq<Arm>) {
    forall i, j :: 0 <= i < j < |arms| ==> arms[i].num != arms[j].num
  }

  /** Field numbers are distinct and at most 15, so that every tag is a single byte. */
  predicate WellFormed(s: Schema)
    decreases s
  {
    && (forall k :: 0 <= k < |s.cells| ==> CellWellFormed(s.cells[k]))
    && (forall j, k :: 0 <= j < k < |s.cells| ==> Nums(s.cells[j]) !! Nums(s.cells[k]))
  }

  predicate CellWellFormed(c: Cell)
    decreases c
  {
    && (c.Alt? || 1 <= c.num <= 15)
    && (match c
        case Sub(_, s) => WellFormed(s)
        case Msgs(_, s) => WellFormed(s)
        case Alt(arms) =>
          && ArmsDistinct(arms)
          && forall i :: 0 <= i < |arms| ==>
               1 <= arms[i].num <= 15 && (arms[i].MsgArm? ==> WellFormed(arms[i].msg))
        case _ => true)
  }
}
