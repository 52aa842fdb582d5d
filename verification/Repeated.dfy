/** The runtime's repeated field of strings or numbers: a list object of its own. */
module Repeated {
  import opened Seqs
  import opened Wire
  import opened Codec
  import opened Refinement
  import opened Sizes
  import opened Streams
  import opened Classes
  import opened Fields

  class RepeatedValues {
    var items: seq<Val>

    constructor ()
      ensures items == []
    {
      items := [];
    }

    constructor Clone(other: RepeatedValues)
      ensures items == other.items
    {
      items := other.items;
    }

    method Append(v: Val)
      modifies this
      ensures items == old(items) + [v]
    {
      items := items + [v];
    }

    method AddRange(vs: seq<Val>)
      modifies this
      ensures items == old(items) + vs
    {
      items := items + vs;
    }

    /** Add(other), also with the list itself. */
    method Add(other: RepeatedValues)
      modifies this
      ensures items == old(items) + old(other.items)
    {
      items := items + other.items;
    }

    /** WriteTo with a string codec. */
    method WriteStrings(output: CodedOutputStream, tag: nat, ghost s: Schema, ghost m: Msg, ghost k: nat,
                        ghost base: seq<byte>)
      requires MsgOk(s, m) && k < |s.cells| && Upto(s, m, k, base, output.buf)
      requires tag < 128 && tag % 8 == 2 && s.cells[k] == Rep(tag / 8) && m.cells[k] == Vs(items)
      requires AllIn(Blob, items)
      modifies output
      ensures Upto(s, m, k + 1, base, output.buf)
      ensures output.buf == old(output.buf) + PutRecs(StringRecs(tag / 8, items))
    {
      hide Upto, MsgOk, PutRecs, PutRec, Scalars;
      ScalarsAre(tag / 8, items);
      ghost var num, before, rs := tag / 8, output.buf, Scalars(tag / 8, Blob, items);
      NoRecs(before, rs);
      ScalarsAt(num, Blob, items, 0);
      for i := 0 to |items|
        invariant |rs| == |items| && output.buf == before + PutRecs(rs[..i])
      {
        ScalarsAt(num, Blob, items, i);
        ghost var done := output.buf;
        output.WriteLenRecord(tag, tag / 8, items[i].bs);
        Grow(before, done, rs, i);
      }
      RepWritten(s, m, k, num, base, before, output.buf);
    }

    /** WriteTo with a packed codec: nothing, or one packed record. */
    method WritePackedUInt32(output: CodedOutputStream, tag: nat, ghost s: Schema, ghost m: Msg, ghost k: nat,
                             ghost base: seq<byte>)
      requires MsgOk(s, m) && k < |s.cells| && Upto(s, m, k, base, output.buf)
      requires tag < 128 && tag % 8 == 2 && s.cells[k] == Pack(tag / 8, U32) && m.cells[k] == Vs(items)
      requires AllIn(U32, items)
      modifies output
      ensures Upto(s, m, k + 1, base, output.buf)
      ensures output.buf == old(output.buf)
                + if items == [] then [] else PutRec(Rec(tag / 8, Len(PackBytes(U32, items))))
    {
      hide Upto, MsgOk, PutVarint, PutRecs, PackBytes;
      ghost var before := output.buf;
      if |items| > 0 {
        output.WriteRawTag(tag);
        output.WriteVarint(PackedSize(U32, items));
        PackedSizeIsLength(U32, items);
        WriteElements(output);
        PackedRecord(before, tag / 8, U32, items);
      } else {
        NothingRecs(before);
      }
      ListWritten(s, m, k, base, before, output.buf);
    }

    method WriteElements(output: CodedOutputStream)
      requires AllIn(U32, items)
      modifies output
      ensures output.buf == old(output.buf) + PackBytes(U32, items)
    {
      hide PutBody;
      for i := 0 to |items|
        invariant output.buf == old(output.buf) + PackBytes(U32, items[..i])
      {
        PackNext(U32, items, i);
        output.WriteUInt32(items[i].n);
        Assoc(old(output.buf), PackBytes(U32, items[..i]), PutBody(ToWire(U32, items[i])));
      }
      assert items[..|items|] == items;
    }
  }

  lemma NothingRecs(buf: seq<byte>)
    ensures buf == buf + PutRecs([])
  {
    Unit(buf);
  }
}
