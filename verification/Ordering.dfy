/** Decoding field by field.

    A run of the parse loop splits into one independent fold per field and one union of
    the unknown records (`RunByField`). So only the order of records inside a field
    matters; a packed list may be cut anywhere; a sub-message may be split at any
    record boundary.
 */
module Ordering {
  import opened Seqs
  import opened Wire
  import opened Unknown
  import opened Codec
  import opened Merging
  import opened Refinement

  /** The records the switch sends to `o` (None: the default label), in order. */
  function Sent(s: Schema, rs: seq<Rec>, o: Option<nat>): seq<Rec> {
    if rs == [] then []
    else Sent(s, rs[..|rs| - 1], o) + (if Owner(s, rs[|rs| - 1]) == o then [rs[|rs| - 1]] else [])
  }

  lemma {:induction false} SentOwned(s: Schema, rs: seq<Rec>, o: Option<nat>)
    requires AllOk(rs)
    ensures AllOk(Sent(s, rs, o))
    ensures forall i :: 0 <= i < |Sent(s, rs, o)| ==> Owner(s, Sent(s, rs, o)[i]) == o
  {
    if rs != [] { SentOwned(s, rs[..|rs| - 1], o); }
  }

  /** The final content of field `k`: a fold of that field's own records. */
  function FieldResult(s: Schema, m: Msg, rs: seq<Rec>, k: nat): Option<Cont>
    requires MsgOk(s, m) && AllOk(rs) && k < |s.cells|
  {
    SentOwned(s, rs, Some(k));
    Fold(s.cells[k], m.cells[k], Sent(s, rs, Some(k)))
  }

  lemma {:induction false} FoldSnoc(c: Cell, x: Cont, rs: seq<Rec>, r: Rec)
    requires CellOk(c, x) && OwnedBy(c, rs) && RecOk(r) && Owns(c, r)
    ensures OwnedBy(c, rs + [r])
    ensures Fold(c, x, rs + [r]) ==
            if Fold(c, x, rs).None? then None else CellStep(c, Fold(c, x, rs).value, r)
    decreases |rs|
  {
    hide CellOk, CellStep, Owns, RecOk;
    if rs == [] {
      Unit([r]);
      FoldOne(c, x, r);
    } else {
      Head(rs, [r]);
      var z := CellStep(c, x, rs[0]);
      if z.Some? { FoldSnoc(c, z.value, rs[1..], r); }
    }
  }

  lemma SentSnoc(s: Schema, rs: seq<Rec>, r: Rec, o: Option<nat>)
    ensures Sent(s, rs + [r], o) == if Owner(s, r) == o then Sent(s, rs, o) + [r] else Sent(s, rs, o)
  {
    hide Owner;
    Snoc(rs, r);
    Unit(Sent(s, rs, o));
  }

  lemma FieldResultSnoc(s: Schema, m: Msg, rs: seq<Rec>, r: Rec, k: nat)
    requires MsgOk(s, m) && AllOk(rs) && RecOk(r) && k < |s.cells|
    ensures AllOk(rs + [r])
    ensures FieldResult(s, m, rs + [r], k) ==
            if Owner(s, r) != Some(k) || FieldResult(s, m, rs, k).None? then FieldResult(s, m, rs, k)
            else CellStep(s.cells[k], FieldResult(s, m, rs, k).value, r)
  {
    hide Sent, Fold, CellOk, CellStep, UnknownOk, RecOk;
    SentOwned(s, rs, Some(k));
    SentSnoc(s, rs, r, Some(k));
    if Owner(s, r) == Some(k) { FoldSnoc(s.cells[k], m.cells[k], Sent(s, rs, Some(k)), r); }
  }

  /** `z` is rejected exactly when some field rejects its own records; otherwise it holds
      each field's own fold and the union of the unknown records. */
  predicate ByField(s: Schema, m: Msg, rs: seq<Rec>, z: Option<Msg>)
    requires MsgOk(s, m) && AllOk(rs)
  {
    if z.None? then exists k :: 0 <= k < |s.cells| && FieldResult(s, m, rs, k).None?
    else
      && |z.value.cells| == |s.cells|
      && z.value.unknown == Union(m.unknown, Sent(s, rs, None))
      && forall k :: 0 <= k < |s.cells| ==> FieldResult(s, m, rs, k) == Some(z.value.cells[k])
  }

  /** The parse loop decodes field by field. */
  lemma {:induction false} RunByField(s: Schema, m: Msg, rs: seq<Rec>)
    requires MsgOk(s, m) && AllOk(rs)
    ensures ByField(s, m, rs, Run(s, m, rs))
    decreases |rs|
  {
    if rs != [] {
      hide CellOk, UnknownOk, RecOk, Owner, Run;
      var head, r := rs[..|rs| - 1], rs[|rs| - 1];
      Last(rs);
      RunByField(s, m, head);
      RunSnoc(s, m, head, r);
      var z := Run(s, m, head);
      if z.None? {
        var k :| 0 <= k < |s.cells| && FieldResult(s, m, head, k).None?;
        FieldResultSnoc(s, m, head, r, k);
      } else {
        StepByField(s, m, head, z.value, r);
      }
    }
  }

  lemma StepByField(s: Schema, m: Msg, head: seq<Rec>, z: Msg, r: Rec)
    requires MsgOk(s, m) && MsgOk(s, z) && AllOk(head) && RecOk(r)
    requires ByField(s, m, head, Some(z))
    ensures AllOk(head + [r]) && ByField(s, m, head + [r], Step(s, z, r))
  {
    hide CellOk, UnknownOk, RecOk, Owner, FieldResult, Sent, Union, Insert;
    var o, w := Owner(s, r), Step(s, z, r);
    LastRecord(s, m, head, r);
    if w.None? {
      FieldResultSnoc(s, m, head, r, o.value);
    } else {
      forall k | 0 <= k < |s.cells| ensures FieldResult(s, m, head + [r], k) == Some(w.value.cells[k]) {
        FieldResultSnoc(s, m, head, r, k);
      }
    }
  }

  lemma LastRecord(s: Schema, m: Msg, head: seq<Rec>, r: Rec)
    requires MsgOk(s, m) && AllOk(head) && RecOk(r)
    ensures AllOk(head + [r])
    ensures Union(m.unknown, Sent(s, head + [r], None)) ==
            if Owner(s, r).None? then Insert(Union(m.unknown, Sent(s, head, None)), r)
            else Union(m.unknown, Sent(s, head, None))
  {
    hide Sent, Union, Insert, Owner, MsgOk;
    SentSnoc(s, head, r, None);
    UnionLast(m.unknown, Sent(s, head, None), r);
  }

  /** Two record lists with the same records in each field, and the same unknown records
      per number, decode alike - or are both rejected. */
  lemma FieldsDecideRun(s: Schema, m: Msg, rs: seq<Rec>, ts: seq<Rec>)
    requires MsgOk(s, m) && AllOk(rs) && AllOk(ts)
    requires forall k: nat :: k < |s.cells| ==> FieldResult(s, m, rs, k) == FieldResult(s, m, ts, k)
    requires forall n: nat :: Only(Sent(s, rs, None), n) == Only(Sent(s, ts, None), n)
    ensures Run(s, m, rs) == Run(s, m, ts)
  {
    hide CellOk, FieldResult, Run, RecOk, Union;
    RunByField(s, m, rs);
    RunByField(s, m, ts);
    if Run(s, m, rs).Some? && Run(s, m, ts).Some? {
      UnionSameLists(m.unknown, Sent(s, rs, None), Sent(s, ts, None));
      MsgExtensional(Run(s, m, rs).value, Run(s, m, ts).value);
    }
  }

  lemma UnionSameLists(u: seq<Rec>, v: seq<Rec>, w: seq<Rec>)
    requires Listed(u)
    requires forall n: nat :: Only(v, n) == Only(w, n)
    ensures Union(u, v) == Union(u, w)
  {
    UnionListed(u, v);
    UnionListed(u, w);
    forall n: nat ensures Only(Union(u, v), n) == Only(Union(u, w), n) {
      OnlyUnion(u, v, n);
      OnlyUnion(u, w, n);
    }
    ListedExtensional(Union(u, v), Union(u, w));
  }

  // ------------------------------------------------------------- field order

  /** Every cell is a single field: the message has no oneof. */
  predicate OneofFree(s: Schema) {
    forall k :: 0 <= k < |s.cells| ==> !s.cells[k].Alt?
  }

  lemma {:induction false} SentWithinNumber(s: Schema, rs: seq<Rec>, k: nat)
    requires k < |s.cells| && !s.cells[k].Alt?
    ensures Sent(s, rs, Some(k)) == Sent(s, Only(rs, s.cells[k].num), Some(k))
  {
    if rs != [] {
      var head, r := rs[..|rs| - 1], rs[|rs| - 1];
      var n := s.cells[k].num;
      Last(rs);
      SentWithinNumber(s, head, k);
      OwnerHasNumber(s, r, k);
      hide Sent, Only, Owner;
      SentSnoc(s, head, r, Some(k));
      OnlySnoc(head, r, n);
      SentSnoc(s, Only(head, n), r, Some(k));
      Unit(Only(head, n));
    }
  }

  lemma OwnerHasNumber(s: Schema, r: Rec, k: nat)
    requires k < |s.cells| && !s.cells[k].Alt?
    ensures Owner(s, r) == Some(k) ==> r.num == s.cells[k].num
  {
  }

  lemma {:induction false} UnknownWithinNumber(s: Schema, rs: seq<Rec>, n: nat)
    ensures Only(Sent(s, rs, None), n) == Sent(s, Only(rs, n), None)
  {
    if rs != [] {
      var head, r := rs[..|rs| - 1], rs[|rs| - 1];
      Last(rs);
      UnknownWithinNumber(s, head, n);
      hide Sent, Only, Owner;
      SentSnoc(s, head, r, None);
      OnlySnoc(head, r, n);
      SentSnoc(s, Only(head, n), r, None);
      OnlySnoc(Sent(s, head, None), r, n);
      Unit(Only(head, n));
      Unit(Only(Sent(s, head, None), n));
    }
  }

  /** Without oneofs, decoding does not depend on field order: only the order of records
      that share a field number matters. */
  lemma FieldOrderIrrelevant(s: Schema, m: Msg, rs: seq<Rec>, ts: seq<Rec>)
    requires OneofFree(s) && MsgOk(s, m) && AllOk(rs) && AllOk(ts)
    requires forall n: nat :: Only(rs, n) == Only(ts, n)
    ensures Run(s, m, rs) == Run(s, m, ts)
  {
    forall k: nat | k < |s.cells| ensures FieldResult(s, m, rs, k) == FieldResult(s, m, ts, k) {
      SentWithinNumber(s, rs, k);
      SentWithinNumber(s, ts, k);
      assert Only(rs, s.cells[k].num) == Only(ts, s.cells[k].num);
    }
    forall n: nat ensures Only(Sent(s, rs, None), n) == Only(Sent(s, ts, None), n) {
      UnknownWithinNumber(s, rs, n);
      UnknownWithinNumber(s, ts, n);
      assert Only(rs, n) == Only(ts, n);
    }
    FieldsDecideRun(s, m, rs, ts);
  }

  // ------------------------------------------------------------ packed lists

  /** One record of a repeated number: a packed chunk or a single element. */
  datatype Chunk = Packed(vs: seq<Val>) | Single(v: Val)

  function ChunkVals(c: Chunk): seq<Val> {
    match c
    case Packed(vs) => vs
    case Single(v) => [v]
  }

  function ChunkRec(num: nat, k: NumKind, c: Chunk): Rec
    requires AllIn(k, ChunkVals(c))
  {
    match c
    case Packed(vs) => Rec(num, Len(PackBytes(k, vs)))
    case Single(v) => assert ChunkVals(c)[0] == v; Rec(num, ToWire(k, v))
  }

  function Joined(cs: seq<Chunk>): seq<Val> {
    if cs == [] then [] else ChunkVals(cs[0]) + Joined(cs[1..])
  }

  predicate ChunksOk(k: NumKind, cs: seq<Chunk>) {
    forall i :: 0 <= i < |cs| ==> AllIn(k, ChunkVals(cs[i]))
  }

  function ChunkRecs(num: nat, k: NumKind, cs: seq<Chunk>): seq<Rec>
    requires ChunksOk(k, cs)
  {
    if cs == [] then [] else [ChunkRec(num, k, cs[0])] + ChunkRecs(num, k, cs[1..])
  }

  lemma ChunkDecodes(num: nat, k: NumKind, xs: seq<Val>, c: Chunk)
    requires 1 <= num <= 15 && AllIn(k, xs) && AllIn(k, ChunkVals(c))
    ensures RecOk(ChunkRec(num, k, c)) && Owns(Pack(num, k), ChunkRec(num, k, c))
    ensures CellStep(Pack(num, k), Vs(xs), ChunkRec(num, k, c)) == Some(Vs(xs + ChunkVals(c)))
  {
    match c
    case Packed(vs) => PackRoundTrip(k, vs);
    case Single(v) => assert ChunkVals(c)[0] == v; ScalarRoundTrip(k, v);
  }

  /** However a list is cut into packed chunks and single elements, it decodes to the list. */
  lemma {:induction false} AnyCutDecodes(num: nat, k: NumKind, xs: seq<Val>, cs: seq<Chunk>)
    requires 1 <= num <= 15 && AllIn(k, xs) && ChunksOk(k, cs)
    ensures OwnedBy(Pack(num, k), ChunkRecs(num, k, cs))
    ensures Fold(Pack(num, k), Vs(xs), ChunkRecs(num, k, cs)) == Some(Vs(xs + Joined(cs)))
    decreases |cs|
  {
    if cs == [] {
      Unit(xs);
    } else {
      var vs := ChunkVals(cs[0]);
      ChunkDecodes(num, k, xs, cs[0]);
      AnyCutDecodes(num, k, xs + vs, cs[1..]);
      hide CellStep, Fold, ChunkRec, ChunkVals, Owns, RecOk;
      FoldCons(Pack(num, k), Vs(xs), ChunkRec(num, k, cs[0]), ChunkRecs(num, k, cs[1..]));
      Assoc(xs, vs, Joined(cs[1..]));
    }
  }

  /** `rs` carries exactly the fields of `m`, interleaved in any way, with every packed list
      cut in any way and the unknown records in order per number. */
  ghost predicate Encodes(s: Schema, m: Msg, rs: seq<Rec>)
    requires MsgOk(s, m)
  {
    && (forall k :: 0 <= k < |s.cells| ==> FieldEncodes(s.cells[k], m.cells[k], Sent(s, rs, Some(k))))
    && (forall n: nat :: Only(Sent(s, rs, None), n) == Only(m.unknown, n))
  }

  ghost predicate FieldEncodes(c: Cell, y: Cont, rs: seq<Rec>)
    requires CellOk(c, y)
  {
    if c.Pack? then
      exists cs :: ChunksOk(c.elem, cs) && Joined(cs) == y.vs && rs == ChunkRecs(c.num, c.elem, cs)
    else rs == CellRecs(c, y)
  }

  lemma FieldEncodingParses(c: Cell, x: Cont, y: Cont, rs: seq<Rec>)
    requires CellWellFormed(c) && CellOk(c, x) && CellOk(c, y) && FieldEncodes(c, y, rs)
    ensures OwnedBy(c, rs) && Fold(c, x, rs) == Some(CellMerge(c, x, y))
  {
    if c.Pack? {
      var cs :| ChunksOk(c.elem, cs) && Joined(cs) == y.vs && rs == ChunkRecs(c.num, c.elem, cs);
      AnyCutDecodes(c.num, c.elem, x.vs, cs);
    } else {
      FieldParseWriteIsMerge(c, x, y);
    }
  }

  /** Every encoding of `m`, not only the one WriteTo emits, decodes to the merge with `m`. */
  lemma AnyEncodingParses(s: Schema, a: Msg, m: Msg, rs: seq<Rec>)
    requires WellFormed(s) && MsgOk(s, a) && MsgOk(s, m) && AllOk(rs) && Encodes(s, m, rs)
    ensures RunBytes(s, a, PutRecs(rs)) == Some(Merge(s, a, m))
  {
    hide CellOk, CellMerge, Run, RecOk, FieldEncodes, Fold, Records, PutRecs;
    RecordsRoundTrip(rs);
    forall k | 0 <= k < |s.cells|
      ensures FieldResult(s, a, rs, k) == Some(CellMerge(s.cells[k], a.cells[k], m.cells[k]))
    {
      assert FieldEncodes(s.cells[k], m.cells[k], Sent(s, rs, Some(k)));
      FieldEncodingParses(s.cells[k], a.cells[k], m.cells[k], Sent(s, rs, Some(k)));
    }
    UnionSameLists(a.unknown, Sent(s, rs, None), m.unknown);
    RunIsMerge(s, a, m, rs);
  }

  lemma RunIsMerge(s: Schema, a: Msg, m: Msg, rs: seq<Rec>)
    requires MsgOk(s, a) && MsgOk(s, m) && AllOk(rs)
    requires forall k :: 0 <= k < |s.cells| ==>
               FieldResult(s, a, rs, k) == Some(CellMerge(s.cells[k], a.cells[k], m.cells[k]))
    requires Union(a.unknown, Sent(s, rs, None)) == Union(a.unknown, m.unknown)
    ensures Run(s, a, rs) == Some(Merge(s, a, m))
  {
    hide CellOk, CellMerge, FieldResult, Run, RecOk, Union;
    RunByField(s, a, rs);
    MsgExtensional(Run(s, a, rs).value, Merge(s, a, m));
  }

  // -------------------------------------------------------- split sub-messages

  /** A field whose payload is a singular sub-message: a plain field or a oneof member. */
  predicate HoldsMessage(c: Cell, r: Rec) {
    Owns(c, r) && (c.Sub? || (c.Alt? && c.arms[FindArm(c.arms, r, 0).value].MsgArm?))
  }

  /** Splitting the payload at a record boundary into two consecutive records of the same
      field decodes to the same message. */
  lemma SplitPayload(s: Schema, m: Msg, num: nat, p: seq<byte>, q: seq<byte>)
    requires MsgOk(s, m) && RecOk(Rec(num, Len(p))) && Records(p).Some?
    requires Owner(s, Rec(num, Len(p))).Some?
    requires HoldsMessage(s.cells[Owner(s, Rec(num, Len(p))).value], Rec(num, Len(p)))
    ensures Run(s, m, [Rec(num, Len(p)), Rec(num, Len(q))]) == Run(s, m, [Rec(num, Len(p + q))])
  {
    var a, b, ab := Rec(num, Len(p)), Rec(num, Len(q)), Rec(num, Len(p + q));
    SameOwner(s, num, p, q);
    SameOwner(s, num, p, p + q);
    var k := Owner(s, a).value;
    var c, x := s.cells[k], m.cells[k];
    SplitCell(c, x, num, p, q);
    RunOne(s, m, a);
    RunOne(s, m, ab);
    RunConcat(s, m, [a], [b]);
    assert [a] + [b] == [a, b];
    if Run(s, m, [a]).Some? {
      var y := CellStep(c, x, a).value;
      RunOne(s, m.(cells := m.cells[k := y]), b);
      var z := CellStep(c, y, b);
      if z.Some? { assert m.cells[k := y][k := z.value] == m.cells[k := z.value]; }
    }
  }

  lemma SameOwner(s: Schema, num: nat, p: seq<byte>, q: seq<byte>)
    ensures Owner(s, Rec(num, Len(p))) == Owner(s, Rec(num, Len(q)))
  {
    SameFind(s.cells, num, p, q, 0);
  }

  lemma {:induction false} SameFind(cells: seq<Cell>, num: nat, p: seq<byte>, q: seq<byte>, i: nat)
    requires i <= |cells|
    ensures FindCell(cells, Rec(num, Len(p)), i) == FindCell(cells, Rec(num, Len(q)), i)
    decreases |cells| - i
  {
    if i < |cells| {
      if cells[i].Alt? { SameArm(cells[i].arms, num, p, q, 0); }
      SameFind(cells, num, p, q, i + 1);
    }
  }

  lemma {:induction false} SameArm(arms: seq<Arm>, num: nat, p: seq<byte>, q: seq<byte>, i: nat)
    requires i <= |arms|
    ensures FindArm(arms, Rec(num, Len(p)), i) == FindArm(arms, Rec(num, Len(q)), i)
    decreases |arms| - i
  {
    if i < |arms| { SameArm(arms, num, p, q, i + 1); }
  }

  lemma SplitCell(c: Cell, x: Cont, num: nat, p: seq<byte>, q: seq<byte>)
    requires CellOk(c, x) && RecOk(Rec(num, Len(p))) && Records(p).Some?
    requires HoldsMessage(c, Rec(num, Len(p)))
    requires Owns(c, Rec(num, Len(q))) && Owns(c, Rec(num, Len(p + q)))
    ensures var y := CellStep(c, x, Rec(num, Len(p)));
            CellStep(c, x, Rec(num, Len(p + q))) == if y.None? then None else CellStep(c, y.value, Rec(num, Len(q)))
  {
    match c
    case Sub(_, t) =>
      RunBytesConcat(t, OrEmpty(t, x.s), p, q);
      hide RunBytes, MsgOk;
    case Alt(arms) =>
      SameArm(arms, num, p, q, 0);
      SameArm(arms, num, p, p + q, 0);
      var i := FindArm(arms, Rec(num, Len(p)), 0).value;
      var t := arms[i].msg;
      RunBytesConcat(t, SubBuilder(arms, x, i), p, q);
      var y := RunBytes(t, SubBuilder(arms, x, i), p);
      if y.Some? { MergeLeftIdentity(t, y.value); }
      hide RunBytes, MsgOk, Merge, FindArm;
  }
}
