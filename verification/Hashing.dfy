/** What each part of a message adds to its hash, stated on the hashes of two messages that differ
    in that part only. */
module Hashing {
  import opened Wire
  import opened Codec
  import opened Equality

  /** A bit is set in the xor when it is set in one of the words only. */
  lemma XorBits(a: Word, b: Word, i: nat)
    ensures i in Xor(a, b) <==> (i in a) != (i in b)
  {
  }

  lemma XorSwap(a: Word, b: Word, c: Word, d: Word)
    ensures Xor(Xor(a, b), Xor(c, d)) == Xor(Xor(a, c), Xor(b, d))
  {
  }

  lemma XorUnits(a: Word)
    ensures Xor(a, {}) == a && Xor({}, a) == a && Xor(a, a) == {}
  {
  }

  /** The messages differ in cell `k` at most. */
  ghost predicate DifferAt(s: Schema, m: Msg, n: Msg, k: nat)
    requires MsgOk(s, m) && MsgOk(s, n)
  {
    k < |s.cells| && m.unknown == n.unknown &&
    forall i :: 0 <= i < |s.cells| && i != k ==> m.cells[i] == n.cells[i]
  }

  lemma {:induction false} PrefixToggles(h: Hashers, s: Schema, m: Msg, n: Msg, k: nat, j: nat)
    requires MsgOk(s, m) && MsgOk(s, n) && DifferAt(s, m, n, k) && j <= |s.cells|
    ensures Xor(PrefixHash(h, s, m, j), PrefixHash(h, s, n, j)) ==
            if k < j then Xor(CellHash(h, s.cells[k], m.cells[k]), CellHash(h, s.cells[k], n.cells[k])) else {}
    decreases j
  {
    hide CellHash, CellOk, UnknownOk, Xor;
    if j == 0 {
      XorUnits({0});
    } else {
      PrefixToggles(h, s, m, n, k, j - 1);
      var x, y := CellHash(h, s.cells[j - 1], m.cells[j - 1]), CellHash(h, s.cells[j - 1], n.cells[j - 1]);
      XorSwap(PrefixHash(h, s, m, j - 1), x, PrefixHash(h, s, n, j - 1), y);
      XorUnits(x);
      XorUnits(Xor(x, y));
      XorUnits(Xor(PrefixHash(h, s, m, j - 1), PrefixHash(h, s, n, j - 1)));
    }
  }

  lemma Toggles(h: Hashers, s: Schema, m: Msg, n: Msg, k: nat)
    requires MsgOk(s, m) && MsgOk(s, n) && DifferAt(s, m, n, k)
    ensures CellOk(s.cells[k], m.cells[k]) && CellOk(s.cells[k], n.cells[k])
    ensures Xor(Hash(h, s, m), Hash(h, s, n)) ==
            Xor(CellHash(h, s.cells[k], m.cells[k]), CellHash(h, s.cells[k], n.cells[k]))
  {
    PrefixToggles(h, s, m, n, k, |s.cells|);
    hide CellHash, CellOk, UnknownOk, Xor, PrefixHash;
    var u := if m.unknown == [] then {} else h.unknown(m.unknown);
    XorSwap(PrefixHash(h, s, m, |s.cells|), u, PrefixHash(h, s, n, |s.cells|), u);
    XorUnits(u);
    XorUnits(Xor(PrefixHash(h, s, m, |s.cells|), PrefixHash(h, s, n, |s.cells|)));
  }

  /** The message with one cell replaced. */
  function With(m: Msg, k: nat, x: Cont): Msg
    requires k < |m.cells|
  {
    m.(cells := m.cells[k := x])
  }

  lemma WithOk(s: Schema, m: Msg, k: nat, x: Cont)
    requires MsgOk(s, m) && k < |s.cells| && CellOk(s.cells[k], x)
    ensures |m.cells| == |s.cells| && MsgOk(s, With(m, k, x)) && DifferAt(s, m, With(m, k, x), k)
  {
    hide CellOk, UnknownOk;
  }

  /** A field without explicit presence adds the hash of its value, unless it is at its default. */
  lemma ScalarAdds(h: Hashers, s: Schema, m: Msg, k: nat, num: nat, kind: Kind, v: Val)
    requires MsgOk(s, m) && k < |s.cells| == |m.cells| && s.cells[k] == One(num, kind) && m.cells[k] == V(v)
    ensures var zero := if kind.Blob? then B([]) else N(0);
            && MsgOk(s, With(m, k, V(zero)))
            && (v != zero ==> Xor(Hash(h, s, m), Hash(h, s, With(m, k, V(zero)))) == h.scalar(kind, v))
  {
    var zero := if kind.Blob? then B([]) else N(0);
    WithOk(s, m, k, V(zero));
    hide MsgOk, Hash, Xor;
    Toggles(h, s, m, With(m, k, V(zero)), k);
    XorUnits(h.scalar(kind, v));
  }

  /** A field with explicit presence adds the hash of its value when present, its default included. */
  lemma OptionalAdds(h: Hashers, s: Schema, m: Msg, k: nat, num: nat, kind: Kind, v: Val)
    requires MsgOk(s, m) && k < |s.cells| == |m.cells| && s.cells[k] == Opt(num, kind) && m.cells[k] == O(Some(v))
    ensures MsgOk(s, With(m, k, O(None)))
    ensures Xor(Hash(h, s, m), Hash(h, s, With(m, k, O(None)))) == h.scalar(kind, v)
  {
    WithOk(s, m, k, O(None));
    hide MsgOk, Hash, Xor;
    Toggles(h, s, m, With(m, k, O(None)), k);
    XorUnits(h.scalar(kind, v));
  }

  /** A sub-message adds its own hash. */
  lemma SubAdds(h: Hashers, s: Schema, m: Msg, k: nat, num: nat, t: Schema, p: Msg)
    requires MsgOk(s, m) && k < |s.cells| == |m.cells| && s.cells[k] == Sub(num, t) && m.cells[k] == S(Some(p))
    ensures MsgOk(t, p) && MsgOk(s, With(m, k, S(None)))
    ensures Xor(Hash(h, s, m), Hash(h, s, With(m, k, S(None)))) == Hash(h, t, p)
  {
    assert CellOk(s.cells[k], m.cells[k]);
    WithOk(s, m, k, S(None));
    hide MsgOk, Hash, Xor;
    Toggles(h, s, m, With(m, k, S(None)), k);
    XorUnits(Hash(h, t, p));
  }

  /** A repeated string or number adds the list hash of its elements' hashes, and an empty list that
      of no elements. */
  lemma ListAdds(h: Hashers, s: Schema, m: Msg, k: nat, vs: seq<Val>)
    requires MsgOk(s, m) && k < |s.cells| == |m.cells| && (s.cells[k].Rep? || s.cells[k].Pack?) && m.cells[k] == Vs(vs)
    ensures MsgOk(s, With(m, k, Vs([])))
    ensures var kind := if s.cells[k].Rep? then Blob else s.cells[k].elem;
            Xor(Hash(h, s, m), Hash(h, s, With(m, k, Vs([])))) ==
            Xor(h.list(seq(|vs|, i requires 0 <= i < |vs| => h.scalar(kind, vs[i]))), h.list([]))
  {
    WithOk(s, m, k, Vs([]));
    hide MsgOk, Hash, Xor;
    Toggles(h, s, m, With(m, k, Vs([])), k);
    var kind := if s.cells[k].Rep? then Blob else s.cells[k].elem;
    NoValues(h, kind, []);
  }

  lemma NoValues(h: Hashers, kind: Kind, vs: seq<Val>)
    ensures vs == [] ==> ListHash(h, kind, vs) == h.list([])
  {
    var hashes := seq(|vs|, i requires 0 <= i < |vs| => h.scalar(kind, vs[i]));
    assert vs == [] ==> hashes == [];
  }

  /** A repeated message adds the list hash of its elements' own hashes. */
  lemma MessagesAdd(h: Hashers, s: Schema, m: Msg, k: nat, num: nat, t: Schema, ms: seq<Msg>)
    requires MsgOk(s, m) && k < |s.cells| == |m.cells| && s.cells[k] == Msgs(num, t) && m.cells[k] == Ms(ms)
    ensures (forall i :: 0 <= i < |ms| ==> MsgOk(t, ms[i])) && MsgOk(s, With(m, k, Ms([])))
    ensures Xor(Hash(h, s, m), Hash(h, s, With(m, k, Ms([])))) ==
            Xor(h.list(seq(|ms|, i requires 0 <= i < |ms| => Hash(h, t, ms[i]))), h.list([]))
  {
    assert CellOk(s.cells[k], m.cells[k]);
    WithOk(s, m, k, Ms([]));
    hide MsgOk, Hash, Xor;
    Toggles(h, s, m, With(m, k, Ms([])), k);
    NoElements(h, num, t, []);
  }

  lemma NoElements(h: Hashers, num: nat, t: Schema, ms: seq<Msg>)
    requires CellOk(Msgs(num, t), Ms(ms))
    ensures ms == [] ==> CellHash(h, Msgs(num, t), Ms(ms)) == h.list([])
  {
    hide MsgOk, Hash;
    var hashes := seq(|ms|, i requires 0 <= i < |ms| => Hash(h, t, ms[i]));
    assert ms == [] ==> hashes == [];
  }

  function MemberHash(h: Hashers, arms: seq<Arm>, x: Cont): Word
    requires CellOk(Alt(arms), x)
  {
    if x.PickV? then Xor(h.scalar(arms[x.arm].kind, x.pv), h.caseHash(arms[x.arm].num))
    else if x.PickM? then Xor(Hash(h, arms[x.arm].msg, x.pm), h.caseHash(arms[x.arm].num))
    else {}
  }

  /** A oneof adds the hash of the member held, its default included, and the case's own. */
  lemma MemberAdds(h: Hashers, s: Schema, m: Msg, k: nat, arms: seq<Arm>)
    requires MsgOk(s, m) && k < |s.cells| == |m.cells| && s.cells[k] == Alt(arms)
    ensures CellOk(Alt(arms), m.cells[k]) && MsgOk(s, With(m, k, Unset))
    ensures Xor(Hash(h, s, m), Hash(h, s, With(m, k, Unset))) == MemberHash(h, arms, m.cells[k])
  {
    assert CellOk(s.cells[k], m.cells[k]);
    WithOk(s, m, k, Unset);
    hide MsgOk, Hash, Xor;
    Toggles(h, s, m, With(m, k, Unset), k);
    XorUnits(CellHash(h, s.cells[k], m.cells[k]));
  }

  /** A non-empty unknown set adds its hash. */
  lemma UnknownAdds(h: Hashers, s: Schema, m: Msg)
    requires MsgOk(s, m) && m.unknown != []
    ensures MsgOk(s, m.(unknown := []))
    ensures Xor(Hash(h, s, m), Hash(h, s, m.(unknown := []))) == h.unknown(m.unknown)
  {
    var n := m.(unknown := []);
    hide CellOk, CellHash;
    assert MsgOk(s, n);
    SamePrefixHash(h, s, m, n, |s.cells|);
    hide PrefixHash, MsgOk, Xor;
    var p, u := PrefixHash(h, s, m, |s.cells|), h.unknown(m.unknown);
    XorUnits(p);
    XorUnits(u);
    XorSwap(p, u, p, {});
  }

  /** How many of the first `n` fields are lists. */
  function Lists(s: Schema, n: nat): nat
    requires n <= |s.cells|
  {
    if n == 0 then 0
    else Lists(s, n - 1) + if s.cells[n - 1].Rep? || s.cells[n - 1].Pack? || s.cells[n - 1].Msgs? then 1 else 0
  }

  /** A new object hashes to 1, with the hash of an empty list for each of its lists. */
  lemma NewHash(h: Hashers, s: Schema)
    ensures MsgOk(s, Empty(s))
    ensures Hash(h, s, Empty(s)) == if Lists(s, |s.cells|) % 2 == 0 then {0} else Xor({0}, h.list([]))
  {
    EmptyOk(s);
    NewPrefix(h, s, |s.cells|);
    XorUnits(PrefixHash(h, s, Empty(s), |s.cells|));
  }

  lemma {:induction false} NewPrefix(h: Hashers, s: Schema, n: nat)
    requires n <= |s.cells| && MsgOk(s, Empty(s))
    ensures PrefixHash(h, s, Empty(s), n) == if Lists(s, n) % 2 == 0 then {0} else Xor({0}, h.list([]))
    decreases n
  {
    if n > 0 {
      var c, e := s.cells[n - 1], h.list([]);
      assert Empty(s).cells[n - 1] == CellEmpty(c);
      NewCell(h, c);
      hide CellHash, CellOk, MsgOk, Xor, Empty;
      NewPrefix(h, s, n - 1);
      if c.Rep? || c.Pack? || c.Msgs? {
        XorTwice({0}, e);
      } else {
        XorUnits({0});
        XorUnits(Xor({0}, e));
      }
    }
  }

  lemma NewCell(h: Hashers, c: Cell)
    requires CellOk(c, CellEmpty(c))
    ensures CellHash(h, c, CellEmpty(c)) == if c.Rep? || c.Pack? || c.Msgs? then h.list([]) else {}
  {
    if c.Msgs? { NoElements(h, c.num, c.msg, []); }
    else if c.Rep? || c.Pack? {
      var kind := if c.Rep? then Blob else c.elem;
      NoValues(h, kind, []);
    }
  }
}
