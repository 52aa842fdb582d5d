/** Equals and GetHashCode.

    Equals compares property getters, so for fields with explicit presence it does not see
    presence; GetHashCode does. Both are equivalence-compatible only if the hash of a
    default value is 0, and `EqualHashesExactly` shows that this is the exact condition.
 */
module Equality {
  import opened Wire
  import opened Codec
  import opened Merging

  /** The property getter of a field with explicit presence. */
  function Getter(k: Kind, o: Option<Val>): Val {
    if o.None? then Default(k) else o.value
  }

  /** The property getter of a scalar oneof member: the default unless it is the one held. */
  function ArmGetter(arms: seq<Arm>, x: Cont, i: nat): Val
    requires i < |arms| && arms[i].ScalarArm?
  {
    if x.PickV? && x.arm == i then x.pv else Default(arms[i].kind)
  }

  function Case(x: Cont): Option<nat> {
    match x
    case PickV(i, _) => Some(i)
    case PickM(i, _) => Some(i)
    case _ => None
  }

  predicate CellEquals(c: Cell, x: Cont, y: Cont)
    requires CellOk(c, x) && CellOk(c, y)
    decreases c
  {
    match c
    case One(_, _) => x.v == y.v
    case Opt(_, k) => Getter(k, x.o) == Getter(k, y.o)
    case Sub(_, s) => if x.s.None? || y.s.None? then x.s == y.s else Equals(s, x.s.value, y.s.value)
    case Rep(_) => x.vs == y.vs
    case Pack(_, _) => x.vs == y.vs
    case Msgs(_, s) =>
      |x.ms| == |y.ms| && forall i :: 0 <= i < |x.ms| ==> Equals(s, x.ms[i], y.ms[i])
    case Alt(arms) =>
      && (forall i :: 0 <= i < |arms| ==>
            if arms[i].ScalarArm? then ArmGetter(arms, x, i) == ArmGetter(arms, y, i)
            else if x.PickM? && x.arm == i && y.PickM? && y.arm == i then Equals(arms[i].msg, x.pm, y.pm)
            else (x.PickM? && x.arm == i) == (y.PickM? && y.arm == i))
      && Case(x) == Case(y)
  }

  /** Equals(other). */
  predicate Equals(s: Schema, a: Msg, b: Msg)
    requires MsgOk(s, a) && MsgOk(s, b)
    decreases s
  {
    && a.unknown == b.unknown
    && forall i :: 0 <= i < |s.cells| ==> CellEquals(s.cells[i], a.cells[i], b.cells[i])
  }

  // ------------------------------------------------- what Equals distinguishes

  /** The message with presence forgotten, at every depth. */
  function Forget(s: Schema, m: Msg): Msg
    requires MsgOk(s, m)
    decreases s
  {
    Msg(seq(|s.cells|, i requires 0 <= i < |s.cells| => ForgetCell(s.cells[i], m.cells[i])), m.unknown)
  }

  function ForgetCell(c: Cell, x: Cont): Cont
    requires CellOk(c, x)
    decreases c
  {
    match c
    case Opt(_, k) => O(Some(Getter(k, x.o)))
    case Sub(_, s) => if x.s.None? then x else S(Some(Forget(s, x.s.value)))
    case Msgs(_, s) => Ms(seq(|x.ms|, i requires 0 <= i < |x.ms| => Forget(s, x.ms[i])))
    case Alt(arms) => if x.PickM? then PickM(x.arm, Forget(arms[x.arm].msg, x.pm)) else x
    case _ => x
  }

  /** Two messages are Equal exactly when they agree up to presence. */
  lemma {:induction false} EqualsIsForget(s: Schema, a: Msg, b: Msg)
    requires MsgOk(s, a) && MsgOk(s, b)
    ensures Equals(s, a, b) <==> Forget(s, a) == Forget(s, b)
    decreases s
  {
    var fa, fb := Forget(s, a), Forget(s, b);
    forall i | 0 <= i < |s.cells|
      ensures CellEquals(s.cells[i], a.cells[i], b.cells[i]) <==> fa.cells[i] == fb.cells[i]
    {
      CellEqualsIsForget(s.cells[i], a.cells[i], b.cells[i]);
    }
    if a.unknown == b.unknown { AgreeIffEqual(fa, fb); }
  }

  lemma {:induction false} CellEqualsIsForget(c: Cell, x: Cont, y: Cont)
    requires CellOk(c, x) && CellOk(c, y)
    ensures CellEquals(c, x, y) <==> ForgetCell(c, x) == ForgetCell(c, y)
    decreases c
  {
    match c
    case Sub(_, s) => if x.s.Some? && y.s.Some? { EqualsIsForget(s, x.s.value, y.s.value); }
    case Msgs(_, s) =>
      var fx, fy := ForgetCell(c, x).ms, ForgetCell(c, y).ms;
      if |x.ms| == |y.ms| {
        forall i | 0 <= i < |x.ms| ensures Equals(s, x.ms[i], y.ms[i]) <==> fx[i] == fy[i] {
          EqualsIsForget(s, x.ms[i], y.ms[i]);
        }
        if forall i :: 0 <= i < |fx| ==> fx[i] == fy[i] { assert fx == fy; }
      } else {
        assert |fx| != |fy|;
      }
    case Alt(arms) => AltEqualsIsForget(arms, x, y);
    case _ =>
  }

  lemma {:induction false} AltEqualsIsForget(arms: seq<Arm>, x: Cont, y: Cont)
    requires CellOk(Alt(arms), x) && CellOk(Alt(arms), y)
    ensures CellEquals(Alt(arms), x, y) <==> ForgetCell(Alt(arms), x) == ForgetCell(Alt(arms), y)
    decreases Alt(arms), 0
  {
    if x.PickM? && y.PickM? && x.arm == y.arm {
      EqualsIsForget(arms[x.arm].msg, x.pm, y.pm);
    } else if x.PickV? && y.PickV? && x.arm == y.arm {
      assert ArmGetter(arms, x, x.arm) == x.pv && ArmGetter(arms, y, x.arm) == y.pv;
    }
  }

  lemma EqualsEquivalence(s: Schema, a: Msg, b: Msg, c: Msg)
    requires MsgOk(s, a) && MsgOk(s, b) && MsgOk(s, c)
    ensures Equals(s, a, a)
    ensures Equals(s, a, b) == Equals(s, b, a)
    ensures Equals(s, a, b) && Equals(s, b, c) ==> Equals(s, a, c)
  {
    EqualsIsForget(s, a, a);
    EqualsIsForget(s, a, b);
    EqualsIsForget(s, b, a);
    EqualsIsForget(s, b, c);
    EqualsIsForget(s, a, c);
  }

  // ------------------------------------------------------------------ hashing

  /** A hash word, as the set of its one-bits. */
  type Word = set<nat>

  /** The `^=` of GetHashCode. */
  function Xor(x: Word, y: Word): Word { (x - y) + (y - x) }

  /** The hash functions of the runtime's own types, left open. */
  datatype Hashers = Hashers(
    scalar: (Kind, Val) -> Word,
    list: seq<Word> -> Word,
    unknown: seq<Rec> -> Word,
    caseHash: nat -> Word)

  function ListHash(h: Hashers, k: Kind, vs: seq<Val>): Word {
    h.list(seq(|vs|, i requires 0 <= i < |vs| => h.scalar(k, vs[i])))
  }

  function CellHash(h: Hashers, c: Cell, x: Cont): Word
    requires CellOk(c, x)
    decreases c, 0, 0
  {
    match c
    case One(_, k) => if x.v == Default(k) then {} else h.scalar(k, x.v)
    case Opt(_, k) => if x.o.None? then {} else h.scalar(k, x.o.value)
    case Sub(_, s) => if x.s.None? then {} else Hash(h, s, x.s.value)
    case Rep(_) => ListHash(h, Blob, x.vs)
    case Pack(_, k) => ListHash(h, k, x.vs)
    case Msgs(_, s) => h.list(seq(|x.ms|, i requires 0 <= i < |x.ms| => Hash(h, s, x.ms[i])))
    case Alt(arms) =>
      match x
      case PickV(i, v) => Xor(h.scalar(arms[i].kind, v), h.caseHash(arms[i].num))
      case PickM(i, m) => Xor(Hash(h, arms[i].msg, m), h.caseHash(arms[i].num))
      case _ => {}
  }

  /** `hash` after the first `n` fields. */
  function PrefixHash(h: Hashers, s: Schema, m: Msg, n: nat): Word
    requires MsgOk(s, m) && n <= |s.cells|
    decreases s, 0, n
  {
    if n == 0 then {0}
    else Xor(PrefixHash(h, s, m, n - 1), CellHash(h, s.cells[n - 1], m.cells[n - 1]))
  }

  /** GetHashCode(). */
  function Hash(h: Hashers, s: Schema, m: Msg): Word
    requires MsgOk(s, m)
    decreases s, 1, 0
  {
    Xor(PrefixHash(h, s, m, |s.cells|), if m.unknown == [] then {} else h.unknown(m.unknown))
  }

  /** No field with explicit presence at any depth has a default that hashes to non-zero. */
  predicate ZeroHashes(h: Hashers, s: Schema)
    decreases s
  {
    forall i :: 0 <= i < |s.cells| ==> CellZeroHashes(h, s.cells[i])
  }

  predicate CellZeroHashes(h: Hashers, c: Cell)
    decreases c
  {
    match c
    case Opt(_, k) => h.scalar(k, Default(k)) == {}
    case Sub(_, s) => ZeroHashes(h, s)
    case Msgs(_, s) => ZeroHashes(h, s)
    case Alt(arms) => forall i :: 0 <= i < |arms| ==> arms[i].MsgArm? ==> ZeroHashes(h, arms[i].msg)
    case _ => true
  }

  /** Equal messages have equal hashes when defaults with presence hash to 0. */
  lemma {:induction false} EqualHashes(h: Hashers, s: Schema, a: Msg, b: Msg)
    requires ZeroHashes(h, s) && MsgOk(s, a) && MsgOk(s, b) && Equals(s, a, b)
    ensures Hash(h, s, a) == Hash(h, s, b)
    decreases s, 1, 0
  {
    PrefixEqualHashes(h, s, a, b, |s.cells|);
  }

  lemma {:induction false} PrefixEqualHashes(h: Hashers, s: Schema, a: Msg, b: Msg, n: nat)
    requires ZeroHashes(h, s) && MsgOk(s, a) && MsgOk(s, b) && Equals(s, a, b) && n <= |s.cells|
    ensures PrefixHash(h, s, a, n) == PrefixHash(h, s, b, n)
    decreases s, 0, n
  {
    hide CellOk, CellHash, UnknownOk, CellEquals, CellZeroHashes;
    if n > 0 {
      PrefixEqualHashes(h, s, a, b, n - 1);
      CellEqualHashes(h, s.cells[n - 1], a.cells[n - 1], b.cells[n - 1]);
    }
  }

  lemma {:induction false} CellEqualHashes(h: Hashers, c: Cell, x: Cont, y: Cont)
    requires CellZeroHashes(h, c) && CellOk(c, x) && CellOk(c, y) && CellEquals(c, x, y)
    ensures CellHash(h, c, x) == CellHash(h, c, y)
    decreases c, 0, 0
  {
    match c
    case Sub(_, s) => if x.s.Some? && y.s.Some? { EqualHashes(h, s, x.s.value, y.s.value); }
    case Msgs(_, s) =>
      forall i | 0 <= i < |x.ms| ensures Hash(h, s, x.ms[i]) == Hash(h, s, y.ms[i]) {
        EqualHashes(h, s, x.ms[i], y.ms[i]);
      }
      var hx := seq(|x.ms|, i requires 0 <= i < |x.ms| => Hash(h, s, x.ms[i]));
      var hy := seq(|y.ms|, i requires 0 <= i < |y.ms| => Hash(h, s, y.ms[i]));
      assert hx == hy;
    case Alt(arms) =>
      CellEqualsIsForget(c, x, y);
      if x.PickM? && y.PickM? { EqualHashes(h, arms[x.arm].msg, x.pm, y.pm); }
    case _ =>
  }

  /** Two messages that differ in one field hash alike exactly when that field does. */
  lemma {:induction false} OneFieldDecidesHash(h: Hashers, s: Schema, a: Msg, b: Msg, k: nat, n: nat)
    requires MsgOk(s, a) && MsgOk(s, b) && k < n <= |s.cells|
    requires forall i :: 0 <= i < |s.cells| && i != k ==> a.cells[i] == b.cells[i]
    ensures PrefixHash(h, s, a, n) == PrefixHash(h, s, b, n)
            <==> CellHash(h, s.cells[k], a.cells[k]) == CellHash(h, s.cells[k], b.cells[k])
    decreases n
  {
    hide CellOk, CellHash, PrefixHash, UnknownOk;
    if n == k + 1 {
      SamePrefixHash(h, s, a, b, k);
      NextField(h, s, a, b, k);
    } else {
      OneFieldDecidesHash(h, s, a, b, k, n - 1);
      assert a.cells[n - 1] == b.cells[n - 1];
      NextField(h, s, a, b, n - 1);
    }
  }

  lemma NextField(h: Hashers, s: Schema, a: Msg, b: Msg, n: nat)
    requires MsgOk(s, a) && MsgOk(s, b) && n < |s.cells|
    ensures var x, y := CellHash(h, s.cells[n], a.cells[n]), CellHash(h, s.cells[n], b.cells[n]);
            var p, q := PrefixHash(h, s, a, n), PrefixHash(h, s, b, n);
            && (p == q ==> (PrefixHash(h, s, a, n + 1) == PrefixHash(h, s, b, n + 1) <==> x == y))
            && (x == y ==> (PrefixHash(h, s, a, n + 1) == PrefixHash(h, s, b, n + 1) <==> p == q))
  {
    XorBoth(PrefixHash(h, s, a, n), PrefixHash(h, s, b, n),
            CellHash(h, s.cells[n], a.cells[n]), CellHash(h, s.cells[n], b.cells[n]));
  }

  lemma XorBoth(p: Word, q: Word, x: Word, y: Word)
    ensures p == q ==> (Xor(p, x) == Xor(q, y) <==> x == y)
    ensures x == y ==> (Xor(p, x) == Xor(q, y) <==> p == q)
  {
    XorTwice(p, x);
    XorTwice(q, y);
  }

  lemma XorTwice(p: Word, x: Word)
    ensures Xor(Xor(p, x), x) == p && Xor(p, Xor(p, x)) == x
  {
  }

  lemma {:induction false} SamePrefixHash(h: Hashers, s: Schema, a: Msg, b: Msg, n: nat)
    requires MsgOk(s, a) && MsgOk(s, b) && n <= |s.cells|
    requires forall i :: 0 <= i < n ==> a.cells[i] == b.cells[i]
    ensures PrefixHash(h, s, a, n) == PrefixHash(h, s, b, n)
    decreases n
  {
    if n > 0 { SamePrefixHash(h, s, a, b, n - 1); }
  }

  // ------------------------------------------------ what Equals compares

  /** No field at any depth has explicit presence. */
  predicate OptFree(s: Schema)
    decreases s
  {
    forall i :: 0 <= i < |s.cells| ==> CellOptFree(s.cells[i])
  }

  predicate CellOptFree(c: Cell)
    decreases c
  {
    match c
    case Opt(_, _) => false
    case Sub(_, s) => OptFree(s)
    case Msgs(_, s) => OptFree(s)
    case Alt(arms) => forall i :: 0 <= i < |arms| ==> arms[i].MsgArm? ==> OptFree(arms[i].msg)
    case _ => true
  }

  lemma {:induction false} NothingForgotten(s: Schema, m: Msg)
    requires OptFree(s) && MsgOk(s, m)
    ensures Forget(s, m) == m
    decreases s
  {
    forall i | 0 <= i < |s.cells| ensures ForgetCell(s.cells[i], m.cells[i]) == m.cells[i] {
      CellNotForgotten(s.cells[i], m.cells[i]);
    }
    hide ForgetCell, CellOk, UnknownOk;
    MsgExtensional(Forget(s, m), m);
  }

  lemma {:induction false} CellNotForgotten(c: Cell, x: Cont)
    requires CellOptFree(c) && CellOk(c, x)
    ensures ForgetCell(c, x) == x
    decreases c
  {
    match c
    case Sub(_, s) => if x.s.Some? { NothingForgotten(s, x.s.value); }
    case Msgs(_, s) =>
      forall i | 0 <= i < |x.ms| ensures Forget(s, x.ms[i]) == x.ms[i] { NothingForgotten(s, x.ms[i]); }
      assert ForgetCell(c, x).ms == x.ms;
    case Alt(arms) => if x.PickM? { NothingForgotten(arms[x.arm].msg, x.pm); }
    case _ =>
  }

  /** Without explicit presence Equals is equality: every field, every element and the unknown set. */
  lemma EqualsIsEquality(s: Schema, a: Msg, b: Msg)
    requires OptFree(s) && MsgOk(s, a) && MsgOk(s, b)
    ensures Equals(s, a, b) <==> a == b
  {
    EqualsIsForget(s, a, b);
    NothingForgotten(s, a);
    NothingForgotten(s, b);
  }

  lemma CellEqualsIsEquality(c: Cell, x: Cont, y: Cont)
    requires CellOptFree(c) && CellOk(c, x) && CellOk(c, y)
    ensures CellEquals(c, x, y) <==> x == y
  {
    var s := Schema([c]);
    assert OptFree(s);
    var a, b := Msg([x], []), Msg([y], []);
    hide CellOk, CellEquals, CellOptFree;
    assert a.cells[0] == x && b.cells[0] == y && s.cells[0] == c;
    EqualsIsEquality(s, a, b);
  }

  // ------------------------------------------- necessity of the condition

  /** The list hash tells one-element lists with different element hashes apart. */
  ghost predicate SingletonsSeparate(h: Hashers) {
    forall x: Word, y: Word :: h.list([x]) == h.list([y]) ==> x == y
  }

  /** Wherever a hash difference inside a list element matters, the list hash shows it. */
  ghost predicate Separates(h: Hashers, s: Schema)
    decreases s
  {
    forall i :: 0 <= i < |s.cells| ==> CellSeparates(h, s.cells[i])
  }

  ghost predicate CellSeparates(h: Hashers, c: Cell)
    decreases c
  {
    match c
    case Sub(_, s) => ZeroHashes(h, s) || Separates(h, s)
    case Msgs(_, s) => ZeroHashes(h, s) || (SingletonsSeparate(h) && Separates(h, s))
    case Alt(arms) =>
      forall i :: 0 <= i < |arms| ==> arms[i].MsgArm? ==> ZeroHashes(h, arms[i].msg) || Separates(h, arms[i].msg)
    case _ => true
  }

  /** Equal messages have equal hashes exactly when, at every depth, the default of each
      presence field hashes to zero. */
  lemma EqualHashesExactly(h: Hashers, s: Schema)
    requires Separates(h, s)
    ensures ZeroHashes(h, s) <==>
            forall a, b :: MsgOk(s, a) && MsgOk(s, b) && Equals(s, a, b) ==> Hash(h, s, a) == Hash(h, s, b)
  {
    if ZeroHashes(h, s) {
      forall a, b | MsgOk(s, a) && MsgOk(s, b) && Equals(s, a, b) ensures Hash(h, s, a) == Hash(h, s, b) {
        EqualHashes(h, s, a, b);
      }
    } else {
      var a, b := UnequalHashes(h, s);
    }
  }

  /** The witnesses: two equal messages with different hashes. */
  lemma {:induction false} UnequalHashes(h: Hashers, s: Schema) returns (a: Msg, b: Msg)
    requires Separates(h, s) && !ZeroHashes(h, s)
    ensures MsgOk(s, a) && MsgOk(s, b) && Equals(s, a, b) && Hash(h, s, a) != Hash(h, s, b)
    decreases s, 1
  {
    var k :| 0 <= k < |s.cells| && !CellZeroHashes(h, s.cells[k]);
    var x, y := UnequalCells(h, s.cells[k]);
    a, b := OneFieldApart(h, s, k, x, y);
  }

  /** The witnesses for one field: unset and set to the default, or a message holding such. */
  lemma {:induction false} UnequalCells(h: Hashers, c: Cell) returns (x: Cont, y: Cont)
    requires CellSeparates(h, c) && !CellZeroHashes(h, c)
    ensures CellOk(c, x) && CellOk(c, y) && CellEquals(c, x, y) && CellHash(h, c, x) != CellHash(h, c, y)
    decreases c, 0
  {
    match c {
      case Opt(_, k) => x, y := O(None), O(Some(Default(k)));
      case Sub(_, s) =>
        var a, b := UnequalHashes(h, s);
        x, y := S(Some(a)), S(Some(b));
      case Msgs(_, s) =>
        var a, b := UnequalHashes(h, s);
        x, y := Ms([a]), Ms([b]);
        SingleHash(h, c.num, s, a);
        SingleHash(h, c.num, s, b);
      case Alt(arms) =>
        var i :| 0 <= i < |arms| && arms[i].MsgArm? && !ZeroHashes(h, arms[i].msg);
        var a, b := UnequalHashes(h, arms[i].msg);
        x, y := PickM(i, a), PickM(i, b);
        XorBoth(Hash(h, arms[i].msg, a), Hash(h, arms[i].msg, b), h.caseHash(arms[i].num), h.caseHash(arms[i].num));
    }
  }

  lemma SingleHash(h: Hashers, num: nat, s: Schema, a: Msg)
    requires MsgOk(s, a)
    ensures CellOk(Msgs(num, s), Ms([a])) && CellHash(h, Msgs(num, s), Ms([a])) == h.list([Hash(h, s, a)])
  {
    hide MsgOk, Hash;
    assert seq(|[a]|, i requires 0 <= i < |[a]| => Hash(h, s, [a][i])) == [Hash(h, s, a)];
  }

  /** Two messages that differ in one field, by equal contents with different hashes. */
  lemma OneFieldApart(h: Hashers, s: Schema, k: nat, x: Cont, y: Cont) returns (a: Msg, b: Msg)
    requires k < |s.cells| && CellOk(s.cells[k], x) && CellOk(s.cells[k], y)
    requires CellEquals(s.cells[k], x, y) && CellHash(h, s.cells[k], x) != CellHash(h, s.cells[k], y)
    ensures MsgOk(s, a) && MsgOk(s, b) && Equals(s, a, b) && Hash(h, s, a) != Hash(h, s, b)
  {
    var e := Empty(s);
    EmptyOk(s);
    a, b := e.(cells := e.cells[k := x]), e.(cells := e.cells[k := y]);
    EqualsEquivalence(s, e, e, e);
    hide CellHash, CellEquals, CellOk, UnknownOk;
    assert MsgOk(s, a) && MsgOk(s, b) && Equals(s, a, b) by {
      forall i | 0 <= i < |s.cells|
        ensures CellOk(s.cells[i], a.cells[i]) && CellOk(s.cells[i], b.cells[i])
        ensures CellEquals(s.cells[i], a.cells[i], b.cells[i])
      {
        assert CellOk(s.cells[i], e.cells[i]) && CellEquals(s.cells[i], e.cells[i], e.cells[i]);
      }
    }
    OneFieldDecidesHash(h, s, a, b, k, |s.cells|);
    XorBoth(PrefixHash(h, s, a, |s.cells|), PrefixHash(h, s, b, |s.cells|), {}, {});
  }
}
