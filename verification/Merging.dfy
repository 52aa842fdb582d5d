/** Laws of MergeFrom(other), for every message type.

    The default message is a unit. Merging is associative except where a oneof drops a
    sub-message and takes it up again; `Regroups` is that exception, stated on the three
    messages, and `MergeAssociative` proves it exact.
 */
module Merging {
  import opened Seqs
  import opened Wire
  import opened Unknown
  import opened Codec

  /** Two values of the same shape are equal when their cells and unknown sets are. */
  lemma MsgExtensional(a: Msg, b: Msg)
    requires |a.cells| == |b.cells| && a.unknown == b.unknown
    requires forall i :: 0 <= i < |a.cells| ==> a.cells[i] == b.cells[i]
    ensures a == b
  {
    assert a.cells == b.cells;
  }

  lemma {:induction false} MergeLeftIdentity(s: Schema, m: Msg)
    requires MsgOk(s, m)
    ensures MsgOk(s, Empty(s)) && Merge(s, Empty(s), m) == m
    decreases s
  {
    EmptyOk(s);
    hide CellMerge, CellOk, CellEmpty, Owner, Union;
    forall i | 0 <= i < |s.cells|
      ensures CellMerge(s.cells[i], CellEmpty(s.cells[i]), m.cells[i]) == m.cells[i]
    {
      CellLeftIdentity(s.cells[i], m.cells[i]);
    }
    UnionLeftIdentity(m.unknown);
    MsgExtensional(Merge(s, Empty(s), m), m);
  }

  lemma {:induction false} CellLeftIdentity(c: Cell, y: Cont)
    requires CellOk(c, y)
    ensures CellMerge(c, CellEmpty(c), y) == y
    decreases c
  {
    match c
    case One(_, _) =>
    case Opt(_, _) =>
    case Sub(_, s) => if y.s.Some? { MergeLeftIdentity(s, y.s.value); }
    case Rep(_) => Unit(y.vs);
    case Pack(_, _) => Unit(y.vs);
    case Msgs(_, _) => Unit(y.ms);
    case Alt(arms) => if y.PickM? { MergeLeftIdentity(arms[y.arm].msg, y.pm); }
  }

  lemma CellRightIdentity(c: Cell, x: Cont)
    requires CellOk(c, x)
    ensures CellMerge(c, x, CellEmpty(c)) == x
  {
    match c
    case Rep(_) => Unit(x.vs);
    case Pack(_, _) => Unit(x.vs);
    case Msgs(_, _) => Unit(x.ms);
    case _ =>
  }

  lemma MergeRightIdentity(s: Schema, m: Msg)
    requires MsgOk(s, m)
    ensures MsgOk(s, Empty(s)) && Merge(s, m, Empty(s)) == m
  {
    EmptyOk(s);
    hide CellMerge, CellOk, CellEmpty, Owner;
    forall i | 0 <= i < |s.cells|
      ensures CellMerge(s.cells[i], m.cells[i], CellEmpty(s.cells[i])) == m.cells[i]
    {
      CellRightIdentity(s.cells[i], m.cells[i]);
    }
    MsgExtensional(Merge(s, m, Empty(s)), m);
  }

  // ------------------------------------------------------------------ covering

  /** `b` leaves nothing of `a` visible: every cell of `a` is empty or overwritten. */
  predicate Covers(s: Schema, a: Msg, b: Msg)
    requires MsgOk(s, a) && MsgOk(s, b)
    decreases s
  {
    && a.unknown == []
    && forall i :: 0 <= i < |s.cells| ==> CellCovers(s.cells[i], a.cells[i], b.cells[i])
  }

  predicate CellCovers(c: Cell, x: Cont, y: Cont)
    requires CellOk(c, x) && CellOk(c, y)
    decreases c
  {
    match c
    case One(_, k) => x.v == Default(k) || y.v != Default(k)
    case Opt(_, _) => x.o.None? || y.o.Some?
    case Sub(_, s) => x.s.None? || (y.s.Some? && Covers(s, x.s.value, y.s.value))
    case Rep(_) => x.vs == []
    case Pack(_, _) => x.vs == []
    case Msgs(_, _) => x.ms == []
    case Alt(arms) =>
      || x.Unset?
      || y.PickV?
      || (y.PickM? && (x.PickM? && x.arm == y.arm ==> Covers(arms[y.arm].msg, x.pm, y.pm)))
  }

  lemma {:induction false} CoversIsAbsorption(s: Schema, a: Msg, b: Msg)
    requires MsgOk(s, a) && MsgOk(s, b)
    ensures Covers(s, a, b) <==> Merge(s, a, b) == b
    decreases s
  {
    hide CellMerge, CellOk, CellCovers, Owner, Union;
    var m := Merge(s, a, b);
    forall i | 0 <= i < |s.cells|
      ensures CellCovers(s.cells[i], a.cells[i], b.cells[i]) <==> m.cells[i] == b.cells[i]
    {
      CellCoversIsAbsorption(s.cells[i], a.cells[i], b.cells[i]);
    }
    UnknownAbsorption(a.unknown, b.unknown);
    if Covers(s, a, b) { MsgExtensional(m, b); }
  }

  lemma UnknownAbsorption(u: seq<Rec>, v: seq<Rec>)
    requires Listed(v)
    ensures Union(u, v) == v <==> u == []
  {
    if u == [] { UnionLeftIdentity(v); }
    assert multiset(Union(u, v)) == multiset(u) + multiset(v);
    assert |multiset(Union(u, v))| == |multiset(u)| + |multiset(v)|;
  }

  lemma ConcatAbsorption<T>(x: seq<T>, y: seq<T>)
    ensures x + y == y <==> x == []
  {
    assert |x + y| == |x| + |y|;
  }

  lemma {:induction false} CellCoversIsAbsorption(c: Cell, x: Cont, y: Cont)
    requires CellOk(c, x) && CellOk(c, y)
    ensures CellCovers(c, x, y) <==> CellMerge(c, x, y) == y
    decreases c
  {
    match c
    case One(_, _) =>
    case Opt(_, _) =>
    case Sub(_, s) =>
      if y.s.Some? {
        if x.s.Some? { CoversIsAbsorption(s, x.s.value, y.s.value); }
        else { MergeLeftIdentity(s, y.s.value); }
      }
    case Rep(_) => ConcatAbsorption(x.vs, y.vs);
    case Pack(_, _) => ConcatAbsorption(x.vs, y.vs);
    case Msgs(_, _) => ConcatAbsorption(x.ms, y.ms);
    case Alt(arms) =>
      if y.PickM? {
        if x.PickM? && x.arm == y.arm { CoversIsAbsorption(arms[y.arm].msg, x.pm, y.pm); }
        else { MergeLeftIdentity(arms[y.arm].msg, y.pm); }
      }
  }

  // -------------------------------------------------------------- associativity

  /** Merging the three messages may be regrouped: no oneof on the way holds a sub-message
      in `a`, another member in `b` and the first member again in `c` without `c` covering
      what `a` held. */
  predicate Regroups(s: Schema, a: Msg, b: Msg, c: Msg)
    requires MsgOk(s, a) && MsgOk(s, b) && MsgOk(s, c)
    decreases s
  {
    forall i :: 0 <= i < |s.cells| ==> CellRegroups(s.cells[i], a.cells[i], b.cells[i], c.cells[i])
  }

  predicate CellRegroups(c: Cell, x: Cont, y: Cont, z: Cont)
    requires CellOk(c, x) && CellOk(c, y) && CellOk(c, z)
    decreases c
  {
    match c
    case Sub(_, s) =>
      x.s.Some? && y.s.Some? && z.s.Some? ==> Regroups(s, x.s.value, y.s.value, z.s.value)
    case Alt(arms) =>
      x.PickM? && z.PickM? && x.arm == z.arm ==>
        if y.Unset? then true
        else if y.PickM? && y.arm == z.arm then Regroups(arms[z.arm].msg, x.pm, y.pm, z.pm)
        else Covers(arms[z.arm].msg, x.pm, z.pm)
    case _ => true
  }

  /** Merging is associative exactly on the triples that regroup. */
  lemma {:induction false} MergeAssociative(s: Schema, a: Msg, b: Msg, c: Msg)
    requires MsgOk(s, a) && MsgOk(s, b) && MsgOk(s, c)
    ensures Merge(s, Merge(s, a, b), c) == Merge(s, a, Merge(s, b, c)) <==> Regroups(s, a, b, c)
    decreases s, 0
  {
    hide CellMerge, CellOk, CellRegroups, Owner, Union;
    var l, r := Merge(s, Merge(s, a, b), c), Merge(s, a, Merge(s, b, c));
    forall i | 0 <= i < |s.cells|
      ensures l.cells[i] == r.cells[i] <==> CellRegroups(s.cells[i], a.cells[i], b.cells[i], c.cells[i])
    {
      MergedCells(s, a, b, c, i);
      CellAssociative(s.cells[i], a.cells[i], b.cells[i], c.cells[i]);
    }
    UnionAssociative(a.unknown, b.unknown, c.unknown);
    AgreeIffEqual(l, r);
  }

  lemma MergedCells(s: Schema, a: Msg, b: Msg, c: Msg, i: nat)
    requires MsgOk(s, a) && MsgOk(s, b) && MsgOk(s, c) && i < |s.cells|
    ensures Merge(s, Merge(s, a, b), c).cells[i]
            == CellMerge(s.cells[i], CellMerge(s.cells[i], a.cells[i], b.cells[i]), c.cells[i])
    ensures Merge(s, a, Merge(s, b, c)).cells[i]
            == CellMerge(s.cells[i], a.cells[i], CellMerge(s.cells[i], b.cells[i], c.cells[i]))
  {
  }

  lemma AgreeIffEqual(a: Msg, b: Msg)
    requires |a.cells| == |b.cells| && a.unknown == b.unknown
    ensures a == b <==> forall i :: 0 <= i < |a.cells| ==> a.cells[i] == b.cells[i]
  {
    if forall i :: 0 <= i < |a.cells| ==> a.cells[i] == b.cells[i] { MsgExtensional(a, b); }
  }

  lemma {:induction false} CellAssociative(c: Cell, x: Cont, y: Cont, z: Cont)
    requires CellOk(c, x) && CellOk(c, y) && CellOk(c, z)
    ensures CellMerge(c, CellMerge(c, x, y), z) == CellMerge(c, x, CellMerge(c, y, z))
            <==> CellRegroups(c, x, y, z)
    decreases c, 2
  {
    hide MsgOk, Merge, Regroups, Covers;
    match c
    case One(_, _) =>
    case Opt(_, _) =>
    case Sub(_, s) => SubAssociative(s, x.s, y.s, z.s);
    case Rep(_) => Assoc(x.vs, y.vs, z.vs);
    case Pack(_, _) => Assoc(x.vs, y.vs, z.vs);
    case Msgs(_, _) => Assoc(x.ms, y.ms, z.ms);
    case Alt(arms) => AltAssociative(arms, x, y, z);
  }

  /** The unit law through an optional sub-message. */
  lemma OrEmptyIdentity(s: Schema, m: Option<Msg>, n: Msg)
    requires MsgOk(s, n) && (m.Some? ==> MsgOk(s, m.value))
    ensures m.None? ==> Merge(s, OrEmpty(s, m), n) == n
  {
    if m.None? { MergeLeftIdentity(s, n); }
  }

  lemma {:induction false} SubAssociative(s: Schema, x: Option<Msg>, y: Option<Msg>, z: Option<Msg>)
    requires (x.Some? ==> MsgOk(s, x.value)) && (y.Some? ==> MsgOk(s, y.value)) && (z.Some? ==> MsgOk(s, z.value))
    ensures var c := Sub(1, s);
            CellMerge(c, CellMerge(c, S(x), S(y)), S(z)) == CellMerge(c, S(x), CellMerge(c, S(y), S(z)))
            <==> CellRegroups(c, S(x), S(y), S(z))
    decreases s, 1
  {
    if z.Some? {
      OrEmptyIdentity(s, x, z.value);
      OrEmptyIdentity(s, y, z.value);
      if y.Some? {
        OrEmptyIdentity(s, x, y.value);
        if x.Some? {
          MergeAssociative(s, x.value, y.value, z.value);
        } else {
          OrEmptyIdentity(s, x, Merge(s, y.value, z.value));
        }
      }
    }
  }

  lemma {:induction false} AltAssociative(arms: seq<Arm>, x: Cont, y: Cont, z: Cont)
    requires CellOk(Alt(arms), x) && CellOk(Alt(arms), y) && CellOk(Alt(arms), z)
    ensures var c := Alt(arms);
            CellMerge(c, CellMerge(c, x, y), z) == CellMerge(c, x, CellMerge(c, y, z))
            <==> CellRegroups(c, x, y, z)
    decreases Alt(arms), 1
  {
    hide MsgOk, Merge, Regroups, Covers;
    if z.PickM? {
      var s := arms[z.arm].msg;
      MergeLeftIdentity(s, z.pm);
      if y.PickM? && y.arm == z.arm {
        MergeLeftIdentity(s, y.pm);
        MergeLeftIdentity(s, Merge(s, y.pm, z.pm));
        if x.PickM? && x.arm == z.arm { MergeAssociative(s, x.pm, y.pm, z.pm); }
      } else if x.PickM? && x.arm == z.arm {
        CoversIsAbsorption(s, x.pm, z.pm);
      }
    }
  }

  // --------------------------------------------------- message types without oneofs

  /** No oneof with a message member is reachable through singular sub-messages. */
  predicate Plain(s: Schema)
    decreases s
  {
    forall i :: 0 <= i < |s.cells| ==> CellPlain(s.cells[i])
  }

  predicate CellPlain(c: Cell)
    decreases c
  {
    match c
    case Sub(_, s) => Plain(s)
    case Alt(arms) => forall i :: 0 <= i < |arms| ==> arms[i].ScalarArm?
    case _ => true
  }

  lemma {:induction false} PlainRegroups(s: Schema, a: Msg, b: Msg, c: Msg)
    requires Plain(s) && MsgOk(s, a) && MsgOk(s, b) && MsgOk(s, c)
    ensures Regroups(s, a, b, c)
    decreases s
  {
    forall i | 0 <= i < |s.cells|
      ensures CellRegroups(s.cells[i], a.cells[i], b.cells[i], c.cells[i])
    {
      assert CellPlain(s.cells[i]);
      match s.cells[i]
      case Sub(_, t) =>
        if a.cells[i].s.Some? && b.cells[i].s.Some? && c.cells[i].s.Some? {
          PlainRegroups(t, a.cells[i].s.value, b.cells[i].s.value, c.cells[i].s.value);
        }
      case _ =>
    }
  }

  /** For such types MergeFrom is a monoid with the default message as unit. */
  lemma PlainMonoid(s: Schema, a: Msg, b: Msg, c: Msg)
    requires Plain(s) && MsgOk(s, a) && MsgOk(s, b) && MsgOk(s, c)
    ensures MsgOk(s, Empty(s)) && Merge(s, Empty(s), a) == a == Merge(s, a, Empty(s))
    ensures Merge(s, Merge(s, a, b), c) == Merge(s, a, Merge(s, b, c))
  {
    MergeLeftIdentity(s, a);
    MergeRightIdentity(s, a);
    PlainRegroups(s, a, b, c);
    MergeAssociative(s, a, b, c);
  }
}
