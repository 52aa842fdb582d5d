/** Proof steps shared by the message classes: one lemma per kind of field for each of
    WriteTo, CalculateSize, MergeFrom(other) and the parse loop. */
module Classes {
  import opened Seqs
  import opened Wire
  import opened Unknown
  import opened Codec
  import opened Merging
  import opened Refinement
  import opened Sizes
  import opened Streams

  // ------------------------------------------------------------- the value

  /** The elements of a repeated message field are well formed. */
  predicate ElementsOk(s: Schema, ms: seq<Msg>) { forall i :: 0 <= i < |ms| ==> MsgOk(s, ms[i]) }

  /** The cell of an explicit-presence bool. */
  function Shown(o: Option<bool>): Option<Val> {
    if o.None? then None else Some(N(Bit(o.value)))
  }

  /** The first `n` fields of `m` are well formed. */
  predicate OkUpto(s: Schema, m: Msg, n: nat) {
    n <= |s.cells| == |m.cells| && forall i :: 0 <= i < n ==> CellOk(s.cells[i], m.cells[i])
  }

  lemma StartOk(s: Schema, m: Msg)
    requires |s.cells| == |m.cells|
    ensures OkUpto(s, m, 0)
  {
  }

  lemma NumberOk(s: Schema, m: Msg, k: nat, num: nat, kind: NumKind, v: int)
    requires OkUpto(s, m, k) && k < |s.cells| == |m.cells|
    requires s.cells[k] == One(num, kind) && m.cells[k] == V(N(v)) && InRange(kind, N(v))
    ensures OkUpto(s, m, k + 1)
  {
  }

  lemma BoolOk(s: Schema, m: Msg, k: nat, num: nat, v: bool)
    requires OkUpto(s, m, k) && k < |s.cells| == |m.cells|
    requires s.cells[k] == One(num, Bool) && m.cells[k] == V(N(Bit(v)))
    ensures OkUpto(s, m, k + 1)
  {
  }

  lemma BlobOk(s: Schema, m: Msg, k: nat, num: nat, v: seq<byte>)
    requires OkUpto(s, m, k) && k < |s.cells| == |m.cells|
    requires s.cells[k] == One(num, Blob) && m.cells[k] == V(B(v))
    ensures OkUpto(s, m, k + 1)
  {
  }

  lemma FlagOk(s: Schema, m: Msg, k: nat, num: nat, o: Option<bool>)
    requires OkUpto(s, m, k) && k < |s.cells| == |m.cells|
    requires s.cells[k] == Opt(num, Bool) && m.cells[k] == O(Shown(o))
    ensures OkUpto(s, m, k + 1)
  {
  }

  lemma SubOk(s: Schema, m: Msg, k: nat, num: nat, t: Schema, o: Option<Msg>)
    requires OkUpto(s, m, k) && k < |s.cells| == |m.cells|
    requires s.cells[k] == Sub(num, t) && m.cells[k] == S(o) && (o.Some? ==> MsgOk(t, o.value))
    ensures OkUpto(s, m, k + 1)
  {
    hide MsgOk;
  }

  lemma RepOk(s: Schema, m: Msg, k: nat, num: nat, vs: seq<Val>)
    requires OkUpto(s, m, k) && k < |s.cells| == |m.cells|
    requires s.cells[k] == Rep(num) && m.cells[k] == Vs(vs) && AllIn(Blob, vs)
    ensures OkUpto(s, m, k + 1)
  {
    hide AllIn;
  }

  lemma MsgsOk(s: Schema, m: Msg, k: nat, num: nat, t: Schema, ms: seq<Msg>)
    requires OkUpto(s, m, k) && k < |s.cells| == |m.cells|
    requires s.cells[k] == Msgs(num, t) && m.cells[k] == Ms(ms) && ElementsOk(t, ms)
    ensures OkUpto(s, m, k + 1)
  {
    hide MsgOk;
  }

  lemma EndOk(s: Schema, m: Msg)
    requires OkUpto(s, m, |s.cells|) && UnknownOk(s, m.unknown)
    ensures MsgOk(s, m)
  {
    hide CellOk, UnknownOk;
  }

  predicate EmptyAt(s: Schema, m: Msg, i: nat) {
    i < |s.cells| == |m.cells| ==> m.cells[i] == CellEmpty(s.cells[i])
  }

  /** A new object, cell by cell. */
  lemma EmptyValue(s: Schema, m: Msg)
    requires |s.cells| == |m.cells| <= 14 && m.unknown == []
    requires EmptyAt(s, m, 0) && EmptyAt(s, m, 1) && EmptyAt(s, m, 2) && EmptyAt(s, m, 3)
    requires EmptyAt(s, m, 4) && EmptyAt(s, m, 5) && EmptyAt(s, m, 6) && EmptyAt(s, m, 7)
    requires EmptyAt(s, m, 8) && EmptyAt(s, m, 9) && EmptyAt(s, m, 10) && EmptyAt(s, m, 11)
    requires EmptyAt(s, m, 12) && EmptyAt(s, m, 13)
    ensures m == Empty(s)
  {
    forall i | 0 <= i < |s.cells| ensures m.cells[i] == CellEmpty(s.cells[i]) {
      assert i < 7 || i >= 7;
    }
    MsgExtensional(m, Empty(s));
  }

  // -------------------------------------------------------------- WriteTo

  /** The stream held `base` and has received the first `k` fields of `m`. */
  ghost predicate Upto(s: Schema, m: Msg, k: nat, base: seq<byte>, buf: seq<byte>)
    requires MsgOk(s, m) && k <= |s.cells|
  {
    buf == base + PutRecs(Prefix(s, m, k))
  }

  lemma StartWrite(s: Schema, m: Msg, base: seq<byte>)
    requires MsgOk(s, m)
    ensures Upto(s, m, 0, base, base)
  {
    Unit(base);
  }

  lemma PutBoth(base: seq<byte>, p: seq<Rec>, c: seq<Rec>)
    ensures base + PutRecs(p) + PutRecs(c) == base + PutRecs(p + c)
  {
    PutRecsConcat(p, c);
    hide PutRecs;
    Assoc(base, PutRecs(p), PutRecs(c));
  }

  lemma ListWritten(s: Schema, m: Msg, k: nat, base: seq<byte>, before: seq<byte>, after: seq<byte>)
    requires MsgOk(s, m) && k < |s.cells| && Upto(s, m, k, base, before)
    requires after == before + PutRecs(CellRecs(s.cells[k], m.cells[k]))
    ensures Upto(s, m, k + 1, base, after)
  {
    hide PutRecs, CellOk, UnknownOk, CellRecs;
    PutBoth(base, Prefix(s, m, k), CellRecs(s.cells[k], m.cells[k]));
  }

  lemma RepWritten(s: Schema, m: Msg, k: nat, num: nat, base: seq<byte>, before: seq<byte>, after: seq<byte>)
    requires MsgOk(s, m) && k < |s.cells| && Upto(s, m, k, base, before)
    requires s.cells[k] == Rep(num) && CellOk(s.cells[k], m.cells[k])
    requires after == before + PutRecs(Scalars(num, Blob, m.cells[k].vs))
    ensures Upto(s, m, k + 1, base, after)
  {
    hide Upto, MsgOk, PutRecs;
    ListWritten(s, m, k, base, before, after);
  }

  lemma MsgsWritten(s: Schema, m: Msg, k: nat, num: nat, t: Schema, base: seq<byte>, before: seq<byte>, after: seq<byte>)
    requires MsgOk(s, m) && k < |s.cells| && Upto(s, m, k, base, before)
    requires s.cells[k] == Msgs(num, t) && m.cells[k].Ms? && ElementsOk(t, m.cells[k].ms)
    requires after == before + PutRecs(SubRecs(num, t, m.cells[k].ms))
    ensures Upto(s, m, k + 1, base, after)
  {
    hide Upto, MsgOk, PutRecs;
    ListWritten(s, m, k, base, before, after);
  }

  lemma RecWritten(s: Schema, m: Msg, k: nat, r: Rec, base: seq<byte>, before: seq<byte>, after: seq<byte>)
    requires MsgOk(s, m) && k < |s.cells| && Upto(s, m, k, base, before)
    requires CellOk(s.cells[k], m.cells[k]) && CellRecs(s.cells[k], m.cells[k]) == [r]
    requires after == before + PutVarint(Tag(r.num, r.payload)) + PutBody(r.payload)
    ensures Upto(s, m, k + 1, base, after)
  {
    Emitted(before, r);
    PutRecsOne(r);
    hide Upto, MsgOk, CellRecs, PutVarint, PutBody, PutRec, PutRecs;
    ListWritten(s, m, k, base, before, after);
  }

  lemma NothingWritten(s: Schema, m: Msg, k: nat, base: seq<byte>, buf: seq<byte>)
    requires MsgOk(s, m) && k < |s.cells| && Upto(s, m, k, base, buf)
    requires CellOk(s.cells[k], m.cells[k]) && CellRecs(s.cells[k], m.cells[k]) == []
    ensures Upto(s, m, k + 1, base, buf)
  {
    Unit(buf);
    hide Upto, MsgOk, CellRecs;
    ListWritten(s, m, k, base, buf, buf);
  }

  /** What a scalar field appends: its tag and its value. */
  function ScalarBytes(num: nat, k: Kind, v: Val, before: seq<byte>): seq<byte>
    requires InRange(k, v)
  {
    before + PutVarint(8 * num + (if k.Blob? then 2 else 0)) + PutBody(ToWire(k, v))
  }

  /** What a sub-message field appends: its tag, its length and its bytes. */
  function MessageBytes(num: nat, bs: seq<byte>, before: seq<byte>): seq<byte> {
    before + PutVarint(8 * num + 2) + PutBody(Len(bs))
  }

  lemma OneWritten(s: Schema, m: Msg, k: nat, num: nat, kind: Kind, v: Val,
                   base: seq<byte>, before: seq<byte>, after: seq<byte>)
    requires MsgOk(s, m) && k < |s.cells| && Upto(s, m, k, base, before)
    requires s.cells[k] == One(num, kind) && m.cells[k] == V(v) && InRange(kind, v)
    requires after == if v == Default(kind) then before else ScalarBytes(num, kind, v, before)
    ensures Upto(s, m, k + 1, base, after)
  {
    hide Upto, MsgOk, PutVarint, PutBody, ToWire;
    if v == Default(kind) { NothingWritten(s, m, k, base, before); }
    else { RecWritten(s, m, k, Rec(num, ToWire(kind, v)), base, before, after); }
  }

  lemma OptWritten(s: Schema, m: Msg, k: nat, num: nat, kind: Kind, o: Option<Val>,
                   base: seq<byte>, before: seq<byte>, after: seq<byte>)
    requires MsgOk(s, m) && k < |s.cells| && Upto(s, m, k, base, before)
    requires s.cells[k] == Opt(num, kind) && m.cells[k] == O(o) && (o.Some? ==> InRange(kind, o.value))
    requires after == if o.None? then before else ScalarBytes(num, kind, o.value, before)
    ensures Upto(s, m, k + 1, base, after)
  {
    hide Upto, MsgOk, PutVarint, PutBody, ToWire;
    if o.None? { NothingWritten(s, m, k, base, before); }
    else { RecWritten(s, m, k, Rec(num, ToWire(kind, o.value)), base, before, after); }
  }

  lemma SubWritten(s: Schema, m: Msg, k: nat, num: nat, t: Schema, o: Option<Msg>,
                   base: seq<byte>, before: seq<byte>, after: seq<byte>)
    requires MsgOk(s, m) && k < |s.cells| && Upto(s, m, k, base, before)
    requires s.cells[k] == Sub(num, t) && m.cells[k] == S(o) && (o.Some? ==> MsgOk(t, o.value))
    requires after == if o.None? then before else MessageBytes(num, Bytes(t, o.value), before)
    ensures Upto(s, m, k + 1, base, after)
  {
    hide Upto, MsgOk, PutVarint, PutBody, Bytes;
    if o.None? { NothingWritten(s, m, k, base, before); }
    else { RecWritten(s, m, k, Rec(num, Len(Bytes(t, o.value))), base, before, after); }
  }

  /** WriteTo on a number field. */
  method WriteNumber(output: CodedOutputStream, tag: nat, kind: NumKind, v: int,
                     ghost s: Schema, ghost m: Msg, ghost k: nat, ghost base: seq<byte>)
    requires MsgOk(s, m) && k < |s.cells| && Upto(s, m, k, base, output.buf)
    requires tag < 128 && tag % 8 == 0 && s.cells[k] == One(tag / 8, kind)
    requires InRange(kind, N(v)) && m.cells[k] == V(N(v))
    modifies output
    ensures Upto(s, m, k + 1, base, output.buf)
  {
    hide Upto, MsgOk, PutVarint;
    ghost var before := output.buf;
    if v != 0 {
      output.WriteRawTag(tag);
      output.WriteVarint(Unsigned(v));
    }
    OneWritten(s, m, k, tag / 8, kind, N(v), base, before, output.buf);
  }

  /** WriteTo on a string or bytes field. */
  method WriteBlob(output: CodedOutputStream, tag: nat, v: seq<byte>,
                   ghost s: Schema, ghost m: Msg, ghost k: nat, ghost base: seq<byte>)
    requires MsgOk(s, m) && k < |s.cells| && Upto(s, m, k, base, output.buf)
    requires tag < 128 && tag % 8 == 2 && s.cells[k] == One(tag / 8, Blob) && m.cells[k] == V(B(v))
    modifies output
    ensures Upto(s, m, k + 1, base, output.buf)
  {
    hide Upto, MsgOk, PutVarint;
    ghost var before := output.buf;
    if |v| != 0 {
      output.WriteRawTag(tag);
      output.WriteBytes(v);
    }
    OneWritten(s, m, k, tag / 8, Blob, B(v), base, before, output.buf);
  }

  /** What a oneof appends: the member it holds. */
  function AltBytes(arms: seq<Arm>, x: Cont, before: seq<byte>): seq<byte>
    requires CellOk(Alt(arms), x)
  {
    match x
    case PickV(i, v) => ScalarBytes(arms[i].num, arms[i].kind, v, before)
    case PickM(i, m) => MessageBytes(arms[i].num, Bytes(arms[i].msg, m), before)
    case _ => before
  }

  lemma Width(s: Schema, m: Msg)
    requires MsgOk(s, m)
    ensures |m.cells| == |s.cells|
  {
  }

  lemma AltWritten(s: Schema, m: Msg, k: nat, arms: seq<Arm>,
                   base: seq<byte>, before: seq<byte>, after: seq<byte>)
    requires MsgOk(s, m) && k < |s.cells| && Upto(s, m, k, base, before)
    requires s.cells[k] == Alt(arms) && CellOk(Alt(arms), m.cells[k])
    requires after == AltBytes(arms, m.cells[k], before)
    ensures Upto(s, m, k + 1, base, after)
  {
    hide Upto, MsgOk, PutVarint, PutBody, ToWire, Bytes;
    Width(s, m);
    var x := m.cells[k];
    match x
    case PickV(i, v) => RecWritten(s, m, k, Rec(arms[i].num, ToWire(arms[i].kind, v)), base, before, after);
    case PickM(i, n) => RecWritten(s, m, k, Rec(arms[i].num, Len(Bytes(arms[i].msg, n))), base, before, after);
    case _ => NothingWritten(s, m, k, base, before);
  }

  lemma EndWrite(s: Schema, m: Msg, base: seq<byte>, before: seq<byte>, after: seq<byte>)
    requires MsgOk(s, m) && Upto(s, m, |s.cells|, base, before)
    requires after == before + PutRecs(m.unknown)
    ensures after == base + Bytes(s, m)
  {
    hide PutRecs, MsgOk, Prefix;
    PutBoth(base, Prefix(s, m, |s.cells|), m.unknown);
  }

  // -------------------------------------------------------- CalculateSize

  lemma StartSize(s: Schema, m: Msg)
    requires MsgOk(s, m)
    ensures PrefixSize(s, m, 0) == 0
  {
  }

  lemma NextSize(s: Schema, m: Msg, k: nat)
    requires MsgOk(s, m) && k < |s.cells|
    ensures CellOk(s.cells[k], m.cells[k])
    ensures PrefixSize(s, m, k + 1) == PrefixSize(s, m, k) + CellSize(s.cells[k], m.cells[k])
  {
    hide CellSize, UnknownOk;
  }

  /** CalculateSize on a number field. */
  function NumberSize(kind: NumKind, v: int): nat
    requires InRange(kind, N(v))
  {
    if v == 0 then 0 else 1 + VarintSize(Unsigned(v))
  }

  /** CalculateSize on a string or bytes field. */
  function BlobSize(v: seq<byte>): nat {
    if |v| == 0 then 0 else 1 + ComputeBytesSize(v)
  }

  lemma NumberSized(s: Schema, m: Msg, k: nat, num: nat, kind: NumKind, v: int)
    requires MsgOk(s, m) && k < |s.cells|
    requires s.cells[k] == One(num, kind) && InRange(kind, N(v)) && m.cells[k] == V(N(v))
    ensures PrefixSize(s, m, k + 1) == PrefixSize(s, m, k) + NumberSize(kind, v)
  {
    hide MsgOk, PrefixSize;
    NextSize(s, m, k);
  }

  lemma BlobSized(s: Schema, m: Msg, k: nat, num: nat, v: seq<byte>)
    requires MsgOk(s, m) && k < |s.cells| && s.cells[k] == One(num, Blob) && m.cells[k] == V(B(v))
    ensures PrefixSize(s, m, k + 1) == PrefixSize(s, m, k) + BlobSize(v)
  {
    hide MsgOk, PrefixSize;
    NextSize(s, m, k);
  }

  /** CalculateSize on a packed field. */
  function PackedFieldSize(kind: NumKind, vs: seq<Val>): nat
    requires AllIn(kind, vs)
  {
    if |vs| == 0 then 0 else 1 + ComputeLengthSize(PackedSize(kind, vs))
  }

  lemma PackSized(s: Schema, m: Msg, k: nat, num: nat, kind: NumKind, vs: seq<Val>)
    requires MsgOk(s, m) && k < |s.cells|
    requires s.cells[k] == Pack(num, kind) && AllIn(kind, vs) && m.cells[k] == Vs(vs)
    ensures PrefixSize(s, m, k + 1) == PrefixSize(s, m, k) + PackedFieldSize(kind, vs)
  {
    hide MsgOk, PrefixSize, AllIn, PackedSize;
    NextSize(s, m, k);
  }

  lemma RepSized(s: Schema, m: Msg, k: nat, num: nat, vs: seq<Val>)
    requires MsgOk(s, m) && k < |s.cells|
    requires s.cells[k] == Rep(num) && AllIn(Blob, vs) && m.cells[k] == Vs(vs)
    ensures PrefixSize(s, m, k + 1) == PrefixSize(s, m, k) + ScalarsSize(Blob, vs)
  {
    hide MsgOk, PrefixSize, AllIn, ScalarsSize;
    NextSize(s, m, k);
  }

  lemma MsgsSized(s: Schema, m: Msg, k: nat, num: nat, t: Schema, ms: seq<Msg>)
    requires MsgOk(s, m) && k < |s.cells|
    requires s.cells[k] == Msgs(num, t) && ElementsOk(t, ms) && m.cells[k] == Ms(ms)
    ensures PrefixSize(s, m, k + 1) == PrefixSize(s, m, k) + MessagesSize(t, ms)
  {
    hide MsgOk, PrefixSize, MessagesSize;
    NextSize(s, m, k);
  }

  // ------------------------------------------------------ MergeFrom(other)

  /** The first `n` fields of `m` are the merged ones. */
  ghost predicate MergedUpto(s: Schema, a: Msg, b: Msg, m: Msg, n: nat)
    requires MsgOk(s, a) && MsgOk(s, b) && n <= |s.cells| == |m.cells|
  {
    forall i :: 0 <= i < n ==> m.cells[i] == CellMerge(s.cells[i], a.cells[i], b.cells[i])
  }

  lemma StartMerge(s: Schema, a: Msg, b: Msg, m: Msg)
    requires MsgOk(s, a) && MsgOk(s, b) && |s.cells| == |m.cells|
    ensures MergedUpto(s, a, b, m, 0)
  {
  }

  lemma FieldMerged(s: Schema, a: Msg, b: Msg, m: Msg, k: nat)
    requires MsgOk(s, a) && MsgOk(s, b) && k < |s.cells| == |m.cells| && MergedUpto(s, a, b, m, k)
    requires CellOk(s.cells[k], a.cells[k]) && CellOk(s.cells[k], b.cells[k])
    requires m.cells[k] == CellMerge(s.cells[k], a.cells[k], b.cells[k])
    ensures MergedUpto(s, a, b, m, k + 1)
  {
    hide CellMerge, CellOk, UnknownOk;
  }

  /** MergeFrom(other) on a number field: a zero in `other` keeps the value. */
  function Newer(x: int, y: int): int { if y == 0 then x else y }

  function NewerBool(x: bool, y: bool): bool { if y == false then x else y }

  function NewerBlob(x: seq<byte>, y: seq<byte>): seq<byte> { if |y| == 0 then x else y }

  lemma NumberMerged(s: Schema, a: Msg, b: Msg, m: Msg, k: nat, num: nat, kind: NumKind, x: int, y: int)
    requires MsgOk(s, a) && MsgOk(s, b) && k < |s.cells| == |m.cells| && MergedUpto(s, a, b, m, k)
    requires s.cells[k] == One(num, kind) && a.cells[k] == V(N(x)) && b.cells[k] == V(N(y))
    requires m.cells[k] == V(N(Newer(x, y)))
    ensures MergedUpto(s, a, b, m, k + 1)
  {
    hide MergedUpto, UnknownOk;
    FieldMerged(s, a, b, m, k);
  }

  lemma BoolMerged(s: Schema, a: Msg, b: Msg, m: Msg, k: nat, num: nat, x: bool, y: bool)
    requires MsgOk(s, a) && MsgOk(s, b) && k < |s.cells| == |m.cells| && MergedUpto(s, a, b, m, k)
    requires s.cells[k] == One(num, Bool) && a.cells[k] == V(N(Bit(x))) && b.cells[k] == V(N(Bit(y)))
    requires m.cells[k] == V(N(Bit(NewerBool(x, y))))
    ensures MergedUpto(s, a, b, m, k + 1)
  {
    hide MergedUpto, UnknownOk;
    FieldMerged(s, a, b, m, k);
  }

  lemma BlobMerged(s: Schema, a: Msg, b: Msg, m: Msg, k: nat, num: nat, x: seq<byte>, y: seq<byte>)
    requires MsgOk(s, a) && MsgOk(s, b) && k < |s.cells| == |m.cells| && MergedUpto(s, a, b, m, k)
    requires s.cells[k] == One(num, Blob) && a.cells[k] == V(B(x)) && b.cells[k] == V(B(y))
    requires m.cells[k] == V(B(NewerBlob(x, y)))
    ensures MergedUpto(s, a, b, m, k + 1)
  {
    hide MergedUpto, UnknownOk;
    FieldMerged(s, a, b, m, k);
  }

  lemma MsgsMerged(s: Schema, a: Msg, b: Msg, m: Msg, k: nat, num: nat, t: Schema, x: seq<Msg>, y: seq<Msg>)
    requires MsgOk(s, a) && MsgOk(s, b) && k < |s.cells| == |m.cells| && MergedUpto(s, a, b, m, k)
    requires s.cells[k] == Msgs(num, t) && a.cells[k] == Ms(x) && b.cells[k] == Ms(y)
    requires ElementsOk(t, x) && ElementsOk(t, y) && m.cells[k] == Ms(x + y)
    ensures MergedUpto(s, a, b, m, k + 1)
  {
    hide MergedUpto, UnknownOk;
    FieldMerged(s, a, b, m, k);
  }

  /** MergeFrom(other) on a singular sub-message. */
  function NewerSub(t: Schema, x: Option<Msg>, y: Option<Msg>): (r: Option<Msg>)
    requires (x.Some? ==> MsgOk(t, x.value)) && (y.Some? ==> MsgOk(t, y.value))
    ensures r.Some? ==> MsgOk(t, r.value)
  {
    if y.None? then x else Some(Merge(t, OrEmpty(t, x), y.value))
  }

  lemma SubMerged(s: Schema, a: Msg, b: Msg, m: Msg, k: nat, num: nat, t: Schema, x: Option<Msg>, y: Option<Msg>)
    requires MsgOk(s, a) && MsgOk(s, b) && k < |s.cells| == |m.cells| && MergedUpto(s, a, b, m, k)
    requires s.cells[k] == Sub(num, t) && a.cells[k] == S(x) && b.cells[k] == S(y)
    requires (x.Some? ==> MsgOk(t, x.value)) && (y.Some? ==> MsgOk(t, y.value))
    requires m.cells[k] == S(NewerSub(t, x, y))
    ensures MergedUpto(s, a, b, m, k + 1)
  {
    hide MergedUpto, UnknownOk, MsgOk;
    FieldMerged(s, a, b, m, k);
  }

  lemma AltMerged(s: Schema, a: Msg, b: Msg, m: Msg, k: nat, arms: seq<Arm>, x: Cont, y: Cont)
    requires MsgOk(s, a) && MsgOk(s, b) && k < |s.cells| == |m.cells| && MergedUpto(s, a, b, m, k)
    requires s.cells[k] == Alt(arms) && a.cells[k] == x && b.cells[k] == y
    requires CellOk(Alt(arms), x) && CellOk(Alt(arms), y)
    requires m.cells[k] == CellMerge(Alt(arms), x, y)
    ensures MergedUpto(s, a, b, m, k + 1)
  {
    hide MergedUpto, UnknownOk, CellMerge, CellOk;
    FieldMerged(s, a, b, m, k);
  }

  lemma RepMerged(s: Schema, a: Msg, b: Msg, m: Msg, k: nat, num: nat, x: seq<Val>, y: seq<Val>)
    requires MsgOk(s, a) && MsgOk(s, b) && k < |s.cells| == |m.cells| && MergedUpto(s, a, b, m, k)
    requires s.cells[k] == Rep(num) && a.cells[k] == Vs(x) && b.cells[k] == Vs(y)
    requires AllIn(Blob, x) && AllIn(Blob, y) && m.cells[k] == Vs(x + y)
    ensures MergedUpto(s, a, b, m, k + 1)
  {
    hide MergedUpto, UnknownOk, AllIn;
    FieldMerged(s, a, b, m, k);
  }

  lemma PackMerged(s: Schema, a: Msg, b: Msg, m: Msg, k: nat, num: nat, kind: NumKind, x: seq<Val>, y: seq<Val>)
    requires MsgOk(s, a) && MsgOk(s, b) && k < |s.cells| == |m.cells| && MergedUpto(s, a, b, m, k)
    requires s.cells[k] == Pack(num, kind) && a.cells[k] == Vs(x) && b.cells[k] == Vs(y)
    requires AllIn(kind, x) && AllIn(kind, y) && m.cells[k] == Vs(x + y)
    ensures MergedUpto(s, a, b, m, k + 1)
  {
    hide MergedUpto, UnknownOk, AllIn;
    FieldMerged(s, a, b, m, k);
  }

  lemma EndMerge(s: Schema, a: Msg, b: Msg, m: Msg)
    requires MsgOk(s, a) && MsgOk(s, b) && |m.cells| == |s.cells| && MergedUpto(s, a, b, m, |s.cells|)
    requires m.unknown == Union(a.unknown, b.unknown)
    ensures m == Merge(s, a, b)
  {
    hide CellMerge, CellOk, UnknownOk, Union;
    MsgExtensional(m, Merge(s, a, b));
  }

  // ---------------------------------------------------------- MergeFrom(input)

  /** After reading `tag`, with `b` the bytes that follow: the input is refused. */
  ghost predicate Rejects(s: Schema, m: Msg, tag: nat, b: seq<byte>)
    requires MsgOk(s, m) && 8 <= tag < TWO_32
  {
    match GetBody(tag % 8, b)
    case None => true
    case Some(Token(p, n)) => Step(s, m, Rec(tag / 8, p)).None?
  }

  /** After reading `tag`: a body is consumed, `rest` is left, and `m` becomes `m'`. */
  ghost predicate Accepts(s: Schema, m: Msg, tag: nat, b: seq<byte>, m': Msg, rest: seq<byte>)
    requires MsgOk(s, m) && 8 <= tag < TWO_32
  {
    match GetBody(tag % 8, b)
    case None => false
    case Some(Token(p, n)) => Step(s, m, Rec(tag / 8, p)) == Some(m') && rest == b[n..]
  }

  lemma BadBody(s: Schema, m: Msg, tag: nat, b: seq<byte>)
    requires MsgOk(s, m) && 8 <= tag < TWO_32
    ensures GetBody(tag % 8, b).None? ==> Rejects(s, m, tag, b)
  {
  }

  /** A record handled by case label `k` of the switch. */
  lemma Handled(s: Schema, m: Msg, tag: nat, b: seq<byte>, p: Payload, n: nat, k: nat)
    requires WellFormed(s) && MsgOk(s, m) && 8 <= tag < TWO_32
    requires GetBody(tag % 8, b) == Some(Token(p, n))
    requires k < |s.cells| && CellOk(s.cells[k], m.cells[k]) && Owns(s.cells[k], Rec(tag / 8, p))
    ensures var z := CellStep(s.cells[k], m.cells[k], Rec(tag / 8, p));
            && (z.None? ==> Rejects(s, m, tag, b))
            && (z.Some? ==> Accepts(s, m, tag, b, m.(cells := m.cells[k := z.value]), b[n..]))
  {
    OwnerUnique(s, Rec(tag / 8, p), k);
    hide WellFormed, GetBody, CellOk, CellStep, UnknownOk, Owner;
  }

  lemma BlobRead(s: Schema, m: Msg, k: nat, num: nat, b: seq<byte>)
    requires WellFormed(s) && MsgOk(s, m) && k < |s.cells| && s.cells[k] == One(num, Blob) && 1 <= num <= 15
    ensures GetLen(b).None? ==> Rejects(s, m, 8 * num + 2, b)
    ensures GetLen(b).Some? ==>
              Accepts(s, m, 8 * num + 2, b, m.(cells := m.cells[k := V(B(GetLen(b).value.value))]), b[GetLen(b).value.len..])
  {
    BadBody(s, m, 8 * num + 2, b);
    hide Rejects, Accepts, WellFormed, UnknownOk, GetLen;
    if GetLen(b).Some? { Handled(s, m, 8 * num + 2, b, Len(GetLen(b).value.value), GetLen(b).value.len, k); }
  }

  lemma NumberRead(s: Schema, m: Msg, k: nat, num: nat, kind: NumKind, b: seq<byte>)
    requires WellFormed(s) && MsgOk(s, m) && k < |s.cells| && s.cells[k] == One(num, kind) && 1 <= num <= 15
    ensures GetUInt64(b).None? ==> Rejects(s, m, 8 * num, b)
    ensures GetUInt64(b).Some? ==>
              Accepts(s, m, 8 * num, b, m.(cells := m.cells[k := V(N(Signed(kind, GetUInt64(b).value.value)))]),
                      b[GetUInt64(b).value.len..])
  {
    BadBody(s, m, 8 * num, b);
    hide Rejects, Accepts, WellFormed, UnknownOk, GetUInt64, Signed;
    if GetUInt64(b).Some? { Handled(s, m, 8 * num, b, Varint(GetUInt64(b).value.value), GetUInt64(b).value.len, k); }
  }

  lemma OptRead(s: Schema, m: Msg, k: nat, num: nat, kind: NumKind, b: seq<byte>)
    requires WellFormed(s) && MsgOk(s, m) && k < |s.cells| && s.cells[k] == Opt(num, kind) && 1 <= num <= 15
    ensures GetUInt64(b).None? ==> Rejects(s, m, 8 * num, b)
    ensures GetUInt64(b).Some? ==>
              Accepts(s, m, 8 * num, b, m.(cells := m.cells[k := O(Some(N(Signed(kind, GetUInt64(b).value.value))))]),
                      b[GetUInt64(b).value.len..])
  {
    BadBody(s, m, 8 * num, b);
    hide Rejects, Accepts, WellFormed, UnknownOk, GetUInt64, Signed;
    if GetUInt64(b).Some? { Handled(s, m, 8 * num, b, Varint(GetUInt64(b).value.value), GetUInt64(b).value.len, k); }
  }

  lemma RepRead(s: Schema, m: Msg, k: nat, num: nat, vs: seq<Val>, b: seq<byte>)
    requires WellFormed(s) && MsgOk(s, m) && k < |s.cells| && s.cells[k] == Rep(num) && 1 <= num <= 15
    requires m.cells[k] == Vs(vs)
    ensures GetLen(b).None? ==> Rejects(s, m, 8 * num + 2, b)
    ensures GetLen(b).Some? ==>
              Accepts(s, m, 8 * num + 2, b, m.(cells := m.cells[k := Vs(vs + [B(GetLen(b).value.value)])]),
                      b[GetLen(b).value.len..])
  {
    BadBody(s, m, 8 * num + 2, b);
    hide Rejects, Accepts, WellFormed, UnknownOk, GetLen;
    if GetLen(b).Some? { Handled(s, m, 8 * num + 2, b, Len(GetLen(b).value.value), GetLen(b).value.len, k); }
  }

  /** A repeated number under its packed tag. */
  lemma PackRead(s: Schema, m: Msg, k: nat, num: nat, kind: NumKind, vs: seq<Val>, b: seq<byte>)
    requires WellFormed(s) && MsgOk(s, m) && k < |s.cells| && s.cells[k] == Pack(num, kind) && 1 <= num <= 15
    requires m.cells[k] == Vs(vs)
    ensures GetLen(b).None? || Unpack(kind, GetLen(b).value.value).None? ==> Rejects(s, m, 8 * num + 2, b)
    ensures GetLen(b).Some? && Unpack(kind, GetLen(b).value.value).Some? ==>
              Accepts(s, m, 8 * num + 2, b, m.(cells := m.cells[k := Vs(vs + Unpack(kind, GetLen(b).value.value).value)]),
                      b[GetLen(b).value.len..])
  {
    BadBody(s, m, 8 * num + 2, b);
    hide Rejects, Accepts, WellFormed, UnknownOk, GetLen, Unpack;
    if GetLen(b).Some? { Handled(s, m, 8 * num + 2, b, Len(GetLen(b).value.value), GetLen(b).value.len, k); }
  }

  /** A repeated number under its unpacked tag. */
  lemma ElementRead(s: Schema, m: Msg, k: nat, num: nat, kind: NumKind, vs: seq<Val>, b: seq<byte>)
    requires WellFormed(s) && MsgOk(s, m) && k < |s.cells| && s.cells[k] == Pack(num, kind) && 1 <= num <= 15
    requires m.cells[k] == Vs(vs)
    ensures GetUInt64(b).None? ==> Rejects(s, m, 8 * num, b)
    ensures GetUInt64(b).Some? ==>
              Accepts(s, m, 8 * num, b, m.(cells := m.cells[k := Vs(vs + [N(Signed(kind, GetUInt64(b).value.value))])]),
                      b[GetUInt64(b).value.len..])
  {
    BadBody(s, m, 8 * num, b);
    hide Rejects, Accepts, WellFormed, UnknownOk, GetUInt64, Signed;
    if GetUInt64(b).Some? { Handled(s, m, 8 * num, b, Varint(GetUInt64(b).value.value), GetUInt64(b).value.len, k); }
  }

  /** A repeated message: parsed into a new element. */
  lemma MsgsRead(s: Schema, m: Msg, k: nat, num: nat, t: Schema, ms: seq<Msg>, b: seq<byte>)
    requires WellFormed(s) && MsgOk(s, m) && k < |s.cells| && s.cells[k] == Msgs(num, t) && 1 <= num <= 15
    requires m.cells[k] == Ms(ms)
    ensures MsgOk(t, Empty(t))
    ensures var p := GetLen(b);
            p.None? || RunBytes(t, Empty(t), p.value.value).None? ==> Rejects(s, m, 8 * num + 2, b)
    ensures var p := GetLen(b);
            p.Some? && RunBytes(t, Empty(t), p.value.value).Some? ==>
              Accepts(s, m, 8 * num + 2, b,
                      m.(cells := m.cells[k := Ms(ms + [RunBytes(t, Empty(t), p.value.value).value])]), b[p.value.len..])
  {
    BadBody(s, m, 8 * num + 2, b);
    EmptyOk(t);
    hide Rejects, Accepts, WellFormed, UnknownOk, GetLen, RunBytes, Empty;
    if GetLen(b).Some? { Handled(s, m, 8 * num + 2, b, Len(GetLen(b).value.value), GetLen(b).value.len, k); }
  }

  /** A singular sub-message: parsed in place into the object held or a new one. */
  lemma SubRead(s: Schema, m: Msg, k: nat, num: nat, t: Schema, o: Option<Msg>, b: seq<byte>)
    requires WellFormed(s) && MsgOk(s, m) && k < |s.cells| && s.cells[k] == Sub(num, t) && 1 <= num <= 15
    requires m.cells[k] == S(o) && (o.Some? ==> MsgOk(t, o.value))
    ensures GetLen(b).None? || RunBytes(t, OrEmpty(t, o), GetLen(b).value.value).None? ==> Rejects(s, m, 8 * num + 2, b)
    ensures GetLen(b).Some? && RunBytes(t, OrEmpty(t, o), GetLen(b).value.value).Some? ==>
              Accepts(s, m, 8 * num + 2, b, m.(cells := m.cells[k := S(RunBytes(t, OrEmpty(t, o), GetLen(b).value.value))]),
                      b[GetLen(b).value.len..])
  {
    BadBody(s, m, 8 * num + 2, b);
    hide Rejects, Accepts, WellFormed, UnknownOk, GetLen, RunBytes, OrEmpty;
    if GetLen(b).Some? { Handled(s, m, 8 * num + 2, b, Len(GetLen(b).value.value), GetLen(b).value.len, k); }
  }

  /** A length-delimited record parsed from `start`: the outcome, the value and what is left. */
  ghost predicate SubParsed(t: Schema, start: Msg, b: seq<byte>, r: Option<()>, v: Option<Msg>, rest: seq<byte>)
    requires MsgOk(t, start)
  {
    var p := GetLen(b);
    && (r.None? ==> p.None? || RunBytes(t, start, p.value.value).None?)
    && (r.Some? ==>
          && p.Some? && v.Some? && RunBytes(t, start, p.value.value) == v
          && rest == b[p.value.len..])
  }

  /** A fresh sub-builder after it has merged the member held, if any. */
  function Copied(t: Schema, held: Option<Msg>): (m: Msg)
    requires held.Some? ==> MsgOk(t, held.value)
    ensures MsgOk(t, m)
  {
    EmptyOk(t);
    if held.Some? then Merge(t, Empty(t), held.value) else Empty(t)
  }

  lemma ArmFound(s: Schema, k: nat, arms: seq<Arm>, i: nat, r: Rec)
    requires WellFormed(s) && k < |s.cells| && s.cells[k] == Alt(arms) && i < |arms| && ArmOwns(arms[i], r)
    ensures FindArm(arms, r, 0) == Some(i) && Owns(s.cells[k], r) && 1 <= arms[i].num <= 15
  {
    ArmUnique(arms, r, i);
  }

  lemma ArmBlobRead(s: Schema, m: Msg, k: nat, arms: seq<Arm>, i: nat, num: nat, b: seq<byte>)
    requires WellFormed(s) && MsgOk(s, m) && k < |s.cells| && s.cells[k] == Alt(arms) && 1 <= num <= 15
    requires i < |arms| && arms[i] == ScalarArm(num, Blob)
    ensures GetLen(b).None? ==> Rejects(s, m, 8 * num + 2, b)
    ensures GetLen(b).Some? ==>
              Accepts(s, m, 8 * num + 2, b, m.(cells := m.cells[k := PickV(i, B(GetLen(b).value.value))]),
                      b[GetLen(b).value.len..])
  {
    BadBody(s, m, 8 * num + 2, b);
    if GetLen(b).Some? {
      ArmFound(s, k, arms, i, Rec(num, Len(GetLen(b).value.value)));
      hide Rejects, Accepts, WellFormed, UnknownOk, FindArm, GetLen;
      Handled(s, m, 8 * num + 2, b, Len(GetLen(b).value.value), GetLen(b).value.len, k);
    }
  }

  lemma ArmNumberRead(s: Schema, m: Msg, k: nat, arms: seq<Arm>, i: nat, num: nat, kind: NumKind, b: seq<byte>)
    requires WellFormed(s) && MsgOk(s, m) && k < |s.cells| && s.cells[k] == Alt(arms) && 1 <= num <= 15
    requires i < |arms| && arms[i] == ScalarArm(num, kind)
    ensures GetUInt64(b).None? ==> Rejects(s, m, 8 * num, b)
    ensures GetUInt64(b).Some? ==>
              Accepts(s, m, 8 * num, b, m.(cells := m.cells[k := PickV(i, N(Signed(kind, GetUInt64(b).value.value)))]),
                      b[GetUInt64(b).value.len..])
  {
    BadBody(s, m, 8 * num, b);
    if GetUInt64(b).Some? {
      ArmFound(s, k, arms, i, Rec(num, Varint(GetUInt64(b).value.value)));
      hide Rejects, Accepts, WellFormed, UnknownOk, FindArm, GetUInt64, Signed;
      Handled(s, m, 8 * num, b, Varint(GetUInt64(b).value.value), GetUInt64(b).value.len, k);
    }
  }

  /** A oneof message: parsed into a fresh sub-builder that starts as a copy of the member held. */
  lemma ArmMsgRead(s: Schema, m: Msg, k: nat, arms: seq<Arm>, i: nat, num: nat, t: Schema, b: seq<byte>)
    requires WellFormed(s) && MsgOk(s, m) && k < |s.cells| && s.cells[k] == Alt(arms) && 1 <= num <= 15
    requires i < |arms| && arms[i] == MsgArm(num, t)
    ensures CellOk(Alt(arms), m.cells[k])
    ensures var p := GetLen(b);
            p.None? || RunBytes(t, SubBuilder(arms, m.cells[k], i), p.value.value).None? ==> Rejects(s, m, 8 * num + 2, b)
    ensures var p := GetLen(b);
            p.Some? && RunBytes(t, SubBuilder(arms, m.cells[k], i), p.value.value).Some? ==>
              Accepts(s, m, 8 * num + 2, b,
                      m.(cells := m.cells[k := PickM(i, RunBytes(t, SubBuilder(arms, m.cells[k], i), p.value.value).value)]),
                      b[p.value.len..])
  {
    BadBody(s, m, 8 * num + 2, b);
    if GetLen(b).Some? {
      ArmFound(s, k, arms, i, Rec(num, Len(GetLen(b).value.value)));
      hide Rejects, Accepts, WellFormed, UnknownOk, FindArm, GetLen, RunBytes, SubBuilder;
      Handled(s, m, 8 * num + 2, b, Len(GetLen(b).value.value), GetLen(b).value.len, k);
    }
  }

  /** The two messages have the same cell `i`, unless `i` is `k`. */
  predicate Agree(m: Msg, m': Msg, k: nat, i: nat) {
    i < |m.cells| == |m'.cells| && i != k ==> m.cells[i] == m'.cells[i]
  }

  /** The two messages differ in cell `k` at most. No class has more than 14 cells; listing them
      spares the solver a case split on the index. */
  predicate OnlyDiffer(m: Msg, m': Msg, k: nat) {
    && k < |m.cells| == |m'.cells| <= 14 && m.unknown == m'.unknown
    && Agree(m, m', k, 0) && Agree(m, m', k, 1) && Agree(m, m', k, 2) && Agree(m, m', k, 3)
    && Agree(m, m', k, 4) && Agree(m, m', k, 5) && Agree(m, m', k, 6) && Agree(m, m', k, 7)
    && Agree(m, m', k, 8) && Agree(m, m', k, 9) && Agree(m, m', k, 10) && Agree(m, m', k, 11)
    && Agree(m, m', k, 12) && Agree(m, m', k, 13)
  }

  /** Assigning one field changes one cell. */
  lemma Updated(m: Msg, k: nat, m': Msg)
    requires OnlyDiffer(m, m', k)
    ensures m' == m.(cells := m.cells[k := m'.cells[k]])
  {
    forall i | 0 <= i < |m.cells| ensures m'.cells[i] == m.cells[k := m'.cells[k]][i] {
      assert i < 7 || i >= 7;
    }
    MsgExtensional(m', m.(cells := m.cells[k := m'.cells[k]]));
  }

  /** The tag is one of the field's case labels. */
  predicate Labels(c: Cell, tag: nat) {
    match c
    case One(num, k) => tag == 8 * num + if k.Blob? then 2 else 0
    case Opt(num, k) => tag == 8 * num + if k.Blob? then 2 else 0
    case Pack(num, _) => tag == 8 * num + 2 || tag == 8 * num
    case Alt(arms) => exists i :: 0 <= i < |arms| && ArmLabels(arms[i], tag)
    case _ => tag == 8 * c.num + 2
  }

  predicate ArmLabels(a: Arm, tag: nat) {
    tag == 8 * a.num + if a.ScalarArm? && !a.kind.Blob? then 0 else 2
  }

  lemma OwnedIsLabelled(c: Cell, tag: nat, p: Payload)
    requires WireType(p) == tag % 8 && Owns(c, Rec(tag / 8, p))
    ensures Labels(c, tag)
  {
    if c.Alt? {
      var i := FindArm(c.arms, Rec(tag / 8, p), 0).value;
      assert ArmLabels(c.arms[i], tag);
    }
  }

  /** No case label of cell `i` lists the tag. */
  predicate Skips(s: Schema, tag: nat, i: nat) { i < |s.cells| ==> !Labels(s.cells[i], tag) }

  /** No case label of the class lists the tag. The cells are listed for the solver's sake. */
  predicate NoLabel(s: Schema, tag: nat) {
    && Skips(s, tag, 0) && Skips(s, tag, 1) && Skips(s, tag, 2) && Skips(s, tag, 3)
    && Skips(s, tag, 4) && Skips(s, tag, 5) && Skips(s, tag, 6) && Skips(s, tag, 7)
    && Skips(s, tag, 8) && Skips(s, tag, 9) && Skips(s, tag, 10) && Skips(s, tag, 11)
    && Skips(s, tag, 12) && Skips(s, tag, 13)
  }

  /** A tag no case label lists: the default label keeps the record. */
  lemma OwnedNotSkipped(s: Schema, tag: nat, k: nat, p: Payload)
    requires k < |s.cells| <= 14 && WireType(p) == tag % 8 && Owns(s.cells[k], Rec(tag / 8, p))
    ensures !Skips(s, tag, k)
  {
    OwnedIsLabelled(s.cells[k], tag, p);
  }

  lemma DefaultRead(s: Schema, m: Msg, tag: nat, b: seq<byte>)
    requires MsgOk(s, m) && 8 <= tag < TWO_32 && |s.cells| <= 14 && NoLabel(s, tag)
    ensures var t := GetBody(tag % 8, b);
            && (t.None? ==> Rejects(s, m, tag, b))
            && (t.Some? ==>
                  var r := Rec(tag / 8, t.value.value);
                  && UnknownOk(s, Insert(m.unknown, r))
                  && Accepts(s, m, tag, b, m.(unknown := Insert(m.unknown, r)), b[t.value.len..]))
  {
    var t := GetBody(tag % 8, b);
    hide Skips, Insert, MsgOk, GetBody;
    if t.Some? {
      var r := Rec(tag / 8, t.value.value);
      if Owner(s, r).Some? { OwnedNotSkipped(s, tag, Owner(s, r).value, t.value.value); }
      InsertOk(s, m.unknown, r);
    }
  }

  // ----------------------------------------------------------- the loop

  lemma RunBytesStep(s: Schema, m: Msg, b: seq<byte>, r: Rec, k: nat)
    requires MsgOk(s, m) && GetRec(b) == Some(Token(r, k))
    ensures RunBytes(s, m, b) ==
            if Step(s, m, r).None? then None else RunBytes(s, Step(s, m, r).value, b[k..])
  {
    RecordsUnfold(b, r, k, b[k..]);
    hide GetRec, Records, MsgOk, Step;
    if Records(b[k..]).Some? { Head([r], Records(b[k..]).value); Unit(Records(b[k..]).value); }
  }

  lemma RunBytesBad(s: Schema, m: Msg, b: seq<byte>)
    requires MsgOk(s, m) && b != [] && GetRec(b).None?
    ensures RunBytes(s, m, b).None?
  {
    hide GetRec;
  }

  lemma RecOfTag(b: seq<byte>, t: Token<nat>, body: Option<Token<Payload>>)
    requires b != [] && GetTag(b) == Some(t) && GetBody(t.value % 8, b[t.len..]) == body
    ensures GetRec(b) ==
            if body.None? then None
            else Some(Token(Rec(t.value / 8, body.value.value), t.len + body.value.len))
  {
    hide GetTag, GetBody;
  }

  /** One pass of the loop that refuses. */
  lemma PassRejected(s: Schema, m: Msg, b: seq<byte>, t: Token<nat>)
    requires MsgOk(s, m) && b != [] && GetTag(b) == Some(t)
    requires Rejects(s, m, t.value, b[t.len..])
    ensures RunBytes(s, m, b).None?
  {
    var body := GetBody(t.value % 8, b[t.len..]);
    RecOfTag(b, t, body);
    hide MsgOk, RunBytes, GetBody, GetTag, GetRec, Step;
    if body.None? { RunBytesBad(s, m, b); }
    else { RunBytesStep(s, m, b, Rec(t.value / 8, body.value.value), t.len + body.value.len); }
  }

  /** The record an accepting pass consumes. */
  lemma AcceptedRec(s: Schema, m: Msg, b: seq<byte>, t: Token<nat>, m': Msg, rest: seq<byte>) returns (r: Rec, k: nat)
    requires MsgOk(s, m) && b != [] && GetTag(b) == Some(t)
    requires Accepts(s, m, t.value, b[t.len..], m', rest)
    ensures GetRec(b) == Some(Token(r, k)) && 0 < k <= |b| && rest == b[k..] && Step(s, m, r) == Some(m')
  {
    var body := GetBody(t.value % 8, b[t.len..]);
    hide GetBody, GetTag, MsgOk, Step;
    r, k := Rec(t.value / 8, body.value.value), t.len + body.value.len;
    RecOfTag(b, t, body);
    DropDrop(b, t.len, body.value.len);
  }

  /** One pass of the loop that accepts. */
  lemma PassAccepted(s: Schema, m: Msg, b: seq<byte>, t: Token<nat>, m': Msg, rest: seq<byte>)
    requires MsgOk(s, m) && b != [] && GetTag(b) == Some(t)
    requires Accepts(s, m, t.value, b[t.len..], m', rest)
    ensures MsgOk(s, m') && RunBytes(s, m, b) == RunBytes(s, m', rest) && |rest| < |b|
  {
    var r, k := AcceptedRec(s, m, b, t, m', rest);
    hide Accepts, MsgOk, RunBytes, GetTag, GetRec, Step;
    RunBytesStep(s, m, b, r, k);
  }

  /** The start of a pass: end of input, a malformed tag or an end-group tag. */
  lemma PassTag(s: Schema, m: Msg, b: seq<byte>)
    requires MsgOk(s, m)
    ensures b == [] ==> RunBytes(s, m, b) == Some(m)
    ensures b != [] && (GetTag(b).None? || GetTag(b).value.value % 8 == 4) ==> RunBytes(s, m, b).None?
  {
    hide MsgOk, RunBytes, GetTag, GetBody;
    if b == [] { RunBytesNone(s, m); }
    else if GetTag(b).None? || GetTag(b).value.value % 8 == 4 { NoRec(b); RunBytesBad(s, m, b); }
  }

  lemma RunBytesNone(s: Schema, m: Msg)
    requires MsgOk(s, m)
    ensures RunBytes(s, m, []) == Some(m)
  {
  }

  lemma NoRec(b: seq<byte>)
    requires GetTag(b).None? || GetTag(b).value.value % 8 == 4
    ensures GetRec(b).None?
  {
    hide GetTag;
  }
}
