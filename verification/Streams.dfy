/** The coded streams of the runtime, as the generated classes use them. */
module Streams {
  import opened Seqs
  import opened Wire
  import opened Codec
  import opened Refinement
  import opened Sizes

  type uint = x: int | 0 <= x < TWO_32
  type ulong = x: int | 0 <= x < TWO_64
  type long = x: int | -TWO_63 <= x < TWO_63
  type enum = x: int | -TWO_31 <= x < TWO_31

  function Bit(b: bool): int { if b then 1 else 0 }

  // The Compute...Size functions of CodedOutputStream.

  function ComputeBytesSize(bs: seq<byte>): nat { VarintSize(|bs|) + |bs| }

  function ComputeUIntSize(v: ulong): nat { VarintSize(v) }

  function ComputeInt64Size(v: long): nat { VarintSize(Unsigned(v)) }

  function ComputeEnumSize(v: enum): nat { VarintSize(Unsigned(v)) }

  function ComputeLengthSize(n: nat): nat { VarintSize(n) + n }

  class CodedOutputStream {
    var buf: seq<byte>

    constructor ()
      ensures buf == []
    {
      buf := [];
    }

    method WriteRawTag(tag: nat)
      requires tag < 128
      modifies this
      ensures buf == old(buf) + PutVarint(tag)
    {
      buf := buf + [tag];
    }

    method WriteVarint(v: nat)
      modifies this
      ensures buf == old(buf) + PutVarint(v)
    {
      var rest := v;
      while rest >= 128
        invariant buf + PutVarint(rest) == old(buf) + PutVarint(v)
      {
        Assoc(buf, [128 + rest % 128], PutVarint(rest / 128));
        buf := buf + [128 + rest % 128];
        rest := rest / 128;
      }
      buf := buf + [rest];
    }

    method WriteUInt32(v: uint)
      modifies this
      ensures buf == old(buf) + PutBody(ToWire(U32, N(v)))
    {
      WriteVarint(v);
    }

    method WriteUInt64(v: ulong)
      modifies this
      ensures buf == old(buf) + PutBody(ToWire(U64, N(v)))
    {
      WriteVarint(v);
    }

    method WriteInt64(v: long)
      modifies this
      ensures buf == old(buf) + PutBody(ToWire(I64, N(v)))
    {
      WriteVarint(Unsigned(v));
    }

    method WriteEnum(v: enum)
      modifies this
      ensures buf == old(buf) + PutBody(ToWire(Enum, N(v)))
    {
      WriteVarint(Unsigned(v));
    }

    method WriteBool(v: bool)
      modifies this
      ensures buf == old(buf) + PutBody(ToWire(Bool, N(Bit(v))))
    {
      WriteVarint(if v then 1 else 0);
    }

    /** WriteString and WriteBytes. */
    method WriteBytes(bs: seq<byte>)
      modifies this
      ensures buf == old(buf) + PutBody(ToWire(Blob, B(bs)))
    {
      hide PutVarint;
      WriteVarint(|bs|);
      buf := buf + bs;
      Assoc(old(buf), PutVarint(|bs|), bs);
    }

    method WriteLenRecord(tag: nat, num: nat, bs: seq<byte>)
      requires num <= 15 && tag == 8 * num + 2
      modifies this
      ensures buf == old(buf) + PutRec(Rec(num, Len(bs)))
    {
      hide PutVarint, PutRec, PutBody;
      WriteRawTag(tag);
      WriteBytes(bs);
      Emitted(old(buf), Rec(num, Len(bs)));
    }

    /** UnknownFieldSet.WriteTo. */
    method WriteUnknown(u: seq<Rec>)
      modifies this
      ensures buf == old(buf) + PutRecs(u)
    {
      hide PutRecs, PutRec;
      NoRecs(old(buf), u);
      for i := 0 to |u|
        invariant buf == old(buf) + PutRecs(u[..i])
      {
        Grow(old(buf), buf, u, i);
        buf := buf + PutRec(u[i]);
      }
    }
  }

  /** A tag and a body written one after the other are a record. */
  lemma Emitted(done: seq<byte>, r: Rec)
    ensures done + PutVarint(Tag(r.num, r.payload)) + PutBody(r.payload) == done + PutRec(r)
  {
    hide PutVarint, PutBody;
    Assoc(done, PutVarint(Tag(r.num, r.payload)), PutBody(r.payload));
  }

  lemma NoRecs(base: seq<byte>, rs: seq<Rec>)
    ensures base == base + PutRecs(rs[..0]) && rs[..|rs|] == rs
  {
    Unit(base);
  }

  lemma Grow(base: seq<byte>, done: seq<byte>, rs: seq<Rec>, i: nat)
    requires i < |rs| && done == base + PutRecs(rs[..i])
    ensures done + PutRec(rs[i]) == base + PutRecs(rs[..i + 1])
  {
    PutRecsNext(rs, i);
    hide PutRecs, PutRec;
    Assoc(base, PutRecs(rs[..i]), PutRec(rs[i]));
  }

  lemma PutRecsNext(rs: seq<Rec>, i: nat)
    requires i < |rs|
    ensures PutRecs(rs[..i + 1]) == PutRecs(rs[..i]) + PutRec(rs[i])
  {
    PutRecsOne(rs[i]);
    hide PutRecs, PutRec;
    Next(rs, i);
    PutRecsConcat(rs[..i], [rs[i]]);
  }

  lemma PackedRecord(base: seq<byte>, num: nat, k: NumKind, vs: seq<Val>)
    requires AllIn(k, vs) && vs != []
    ensures base + PutVarint(8 * num + 2) + PutVarint(|PackBytes(k, vs)|) + PackBytes(k, vs)
            == base + PutRecs(CellRecs(Pack(num, k), Vs(vs)))
  {
    hide PutRecs, PutVarint, PackBytes, PutRec, PutBody;
    var bs := PackBytes(k, vs);
    LenWritten(base + PutVarint(8 * num + 2), bs);
    Emitted(base, Rec(num, Len(bs)));
    PutRecsOne(Rec(num, Len(bs)));
  }

  /** A length prefix and the bytes are the body of a length-delimited record. */
  lemma LenWritten(before: seq<byte>, bs: seq<byte>)
    ensures before + PutVarint(|bs|) + bs == before + PutBody(Len(bs))
  {
    hide PutVarint;
    Assoc(before, PutVarint(|bs|), bs);
  }

  lemma {:induction false} ScalarsAt(num: nat, k: Kind, vs: seq<Val>, i: nat)
    requires AllIn(k, vs)
    ensures |Scalars(num, k, vs)| == |vs|
    ensures i < |vs| ==> Scalars(num, k, vs)[i] == Rec(num, ToWire(k, vs[i]))
  {
    if vs != [] { ScalarsAt(num, k, vs[1..], if i == 0 then 0 else i - 1); }
  }

  lemma {:induction false} SubRecsAt(num: nat, s: Schema, ms: seq<Msg>, i: nat)
    requires forall i :: 0 <= i < |ms| ==> MsgOk(s, ms[i])
    ensures |SubRecs(num, s, ms)| == |ms|
    ensures i < |ms| ==> SubRecs(num, s, ms)[i] == Rec(num, Len(Bytes(s, ms[i])))
    decreases |ms|
  {
    if ms != [] { SubRecsAt(num, s, ms[1..], if i == 0 then 0 else i - 1); }
  }

  lemma {:induction false} PackConcat(k: NumKind, xs: seq<Val>, ys: seq<Val>)
    requires AllIn(k, xs) && AllIn(k, ys)
    ensures PackBytes(k, xs + ys) == PackBytes(k, xs) + PackBytes(k, ys)
  {
    hide PutBody, ToWire, InRange;
    if xs == [] {
      Unit(ys);
      Unit(PackBytes(k, ys));
    } else {
      Head(xs, ys);
      PackConcat(k, xs[1..], ys);
      Assoc(PutBody(ToWire(k, xs[0])), PackBytes(k, xs[1..]), PackBytes(k, ys));
    }
  }

  lemma PackNext(k: NumKind, vs: seq<Val>, i: nat)
    requires AllIn(k, vs) && i < |vs|
    ensures PackBytes(k, vs[..i + 1]) == PackBytes(k, vs[..i]) + PutBody(ToWire(k, vs[i]))
  {
    hide PutBody, ToWire, InRange;
    Next(vs, i);
    PackConcat(k, vs[..i], [vs[i]]);
    assert PackBytes(k, [vs[i]][1..]) == [];
    Unit(PutBody(ToWire(k, vs[i])));
  }

  class CodedInputStream {
    const data: seq<byte>
    var pos: nat
    var limit: nat

    ghost predicate Valid()
      reads this
    {
      pos <= limit <= |data|
    }

    /** The bytes up to the current limit. */
    ghost function Rest(): seq<byte>
      requires Valid()
      reads this
    {
      data[pos..limit]
    }

    constructor (bytes: seq<byte>)
      ensures Valid() && Rest() == bytes && data == bytes
    {
      data, pos, limit := bytes, 0, |bytes|;
    }

    /** What reading `t` from the front of `b` returns and leaves. */
    ghost predicate Left<T>(b: seq<byte>, t: Option<Token<T>>, r: Option<T>)
      reads this
    {
      && Valid()
      && (t.None? <==> r.None?)
      && (t.Some? ==> r == Some(t.value.value) && t.value.len <= |b| && Rest() == b[t.value.len..])
    }

    /** The same for a number of kind `k`. */
    ghost predicate LeftNumber(b: seq<byte>, k: Kind, r: Option<int>)
      reads this
    {
      var t := GetUInt64(b);
      && Valid()
      && (t.None? <==> r.None?)
      && (t.Some? ==> r == Some(Signed(k, t.value.value)) && Rest() == b[t.value.len..])
    }

    method Take(k: nat)
      requires Valid() && k <= |Rest()|
      modifies this`pos
      ensures Valid() && Rest() == old(Rest())[k..]
    {
      pos := pos + k;
    }

    /** 0 at the end of the body; None on a malformed tag. */
    method ReadTag() returns (tag: Option<nat>)
      requires Valid()
      modifies this`pos
      ensures Valid()
      ensures old(Rest()) == [] ==> tag == Some(0) && Rest() == []
      ensures old(Rest()) != [] ==> Left(old(Rest()), GetTag(old(Rest())), tag)
    {
      if pos == limit { return Some(0); }
      var t :- GetTag(data[pos..limit]);
      Take(t.len);
      return Some(t.value);
    }

    method ReadUInt64() returns (v: Option<ulong>)
      requires Valid()
      modifies this`pos
      ensures Valid() && LeftNumber(old(Rest()), U64, v)
    {
      var t :- GetUInt64(data[pos..limit]);
      Take(t.len);
      return Some(t.value);
    }

    method ReadUInt32() returns (v: Option<uint>)
      requires Valid()
      modifies this`pos
      ensures Valid() && LeftNumber(old(Rest()), U32, v)
    {
      var t :- GetUInt64(data[pos..limit]);
      Take(t.len);
      return Some(Signed(U32, t.value));
    }

    method ReadInt64() returns (v: Option<long>)
      requires Valid()
      modifies this`pos
      ensures Valid() && LeftNumber(old(Rest()), I64, v)
    {
      var t :- GetUInt64(data[pos..limit]);
      Take(t.len);
      return Some(Signed(I64, t.value));
    }

    method ReadEnum() returns (v: Option<enum>)
      requires Valid()
      modifies this`pos
      ensures Valid() && LeftNumber(old(Rest()), Enum, v)
    {
      var t :- GetUInt64(data[pos..limit]);
      Take(t.len);
      return Some(Signed(Enum, t.value));
    }

    method ReadBool() returns (v: Option<bool>)
      requires Valid()
      modifies this`pos
      ensures Valid() && LeftNumber(old(Rest()), Bool, if v.None? then None else Some(Bit(v.value)))
    {
      var t :- GetUInt64(data[pos..limit]);
      Take(t.len);
      return Some(t.value != 0);
    }

    /** ReadString and ReadBytes. */
    method ReadBytes() returns (v: Option<seq<byte>>)
      requires Valid()
      modifies this`pos
      ensures Valid() && Left(old(Rest()), GetLen(old(Rest())), v)
    {
      var t :- GetLen(data[pos..limit]);
      Take(t.len);
      return Some(t.value);
    }

    /** MergeFieldFrom: the body of a record the switch does not handle. */
    method ReadUnknown(tag: nat) returns (v: Option<Payload>)
      requires Valid()
      modifies this`pos
      ensures Valid() && Left(old(Rest()), GetBody(tag % 8, old(Rest())), v)
    {
      var t :- GetBody(tag % 8, data[pos..limit]);
      Take(t.len);
      return Some(t.value);
    }

    /** The start of ReadMessage: read the length and limit reading to the payload. */
    method PushLimit() returns (outer: Option<nat>)
      requires Valid()
      modifies this`pos, this`limit
      ensures Valid()
      ensures outer.None? <==> GetLen(old(Rest())).None?
      ensures outer.Some? ==>
                && outer.value == old(limit)
                && Rest() == GetLen(old(Rest())).value.value
                && limit <= old(limit)
                && data[limit..old(limit)] == old(Rest())[GetLen(old(Rest())).value.len..]
    {
      var b := data[pos..limit];
      var t :- GetLen(b);
      var end := limit;
      limit := pos + t.len;
      pos := limit - |t.value|;
      GetLenIsSlice(b);
      SliceOfSlice(data, old(pos), end, t.len - |t.value|, t.len);
      return Some(end);
    }

    /** The end of ReadMessage. */
    method PopLimit(outer: nat)
      requires Valid() && Rest() == [] && limit <= outer <= |data|
      modifies this`limit
      ensures Valid() && limit == outer && Rest() == data[old(limit)..outer]
    {
      limit := outer;
    }
  }

  lemma GetLenIsSlice(b: seq<byte>)
    requires GetLen(b).Some?
    ensures var t := GetLen(b).value; |t.value| <= t.len && t.value == b[t.len - |t.value|..t.len]
  {
  }
}
