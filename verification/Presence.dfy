/** The presence bits of a class with explicit-presence fields: one shared word of bits and
    one stored value for each field, which keeps its last value when the bit is cleared. */
module Presence {
  import opened Wire
  import opened Codec
  import opened Streams

  /** _hasBits0; the classes use its low four bits only. */
  type Bits = bv8

  /** The masks of the four fields. */
  function Mask(i: nat): Bits
    requires i < 4
  {
    if i == 0 then 1 else if i == 1 then 2 else if i == 2 then 4 else 8
  }

  predicate Has(bits: Bits, i: nat)
    requires i < 4
  {
    bits & Mask(i) != 0
  }

  /** What a setter does to the word. */
  function Raise(bits: Bits, i: nat): Bits
    requires i < 4
  {
    bits | Mask(i)
  }

  /** What Clear does to the word. */
  function Lower(bits: Bits, i: nat): Bits
    requires i < 4
  {
    bits & !Mask(i)
  }

  lemma OtherBit(bits: Bits, m: Bits, n: Bits)
    requires m & n == 0
    ensures (bits | m) & n == bits & n
    ensures (bits & !m) & n == bits & n
  {
  }

  lemma SameBit(bits: Bits, m: Bits)
    requires m != 0
    ensures (bits | m) & m != 0 && (bits & !m) & m == 0
  {
  }

  lemma MasksDisjoint(i: nat, j: nat)
    requires i < 4 && j < 4
    ensures Mask(i) != 0 && (i != j ==> Mask(i) & Mask(j) == 0)
  {
  }

  /** Setting and clearing a bit decide that bit and keep the other three. */
  lemma BitsIndependent(bits: Bits, i: nat, j: nat)
    requires i < 4 && j < 4
    ensures Has(Raise(bits, i), j) == (i == j || Has(bits, j))
    ensures Has(Lower(bits, i), j) == (i != j && Has(bits, j))
  {
    MasksDisjoint(i, j);
    hide Mask;
    if i == j { SameBit(bits, Mask(i)); } else { OtherBit(bits, Mask(i), Mask(j)); }
  }

  lemma NoBits(i: nat)
    requires i < 4
    ensures !Has(0, i)
  {
  }

  // --------------------------------------------- the four fields as one value

  /** The word and the four stored values. */
  datatype Flags = Flags(bits: Bits, v0: bool, v1: bool, v2: bool, v3: bool) {
    function Stored(i: nat): bool
      requires i < 4
    {
      if i == 0 then v0 else if i == 1 then v1 else if i == 2 then v2 else v3
    }

    /** The setter of field `i`. */
    function Set(i: nat, v: bool): Flags
      requires i < 4
    {
      Flags(Raise(bits, i), if i == 0 then v else v0, if i == 1 then v else v1,
            if i == 2 then v else v2, if i == 3 then v else v3)
    }

    /** Clear of field `i`: the stored value stays. */
    function Clear(i: nat): Flags
      requires i < 4
    {
      this.(bits := Lower(bits, i))
    }

    /** What a reader of the message sees of field `i`. */
    function View(i: nat): Option<bool>
      requires i < 4
    {
      if Has(bits, i) then Some(Stored(i)) else None
    }

    /** The getter. */
    function Get(i: nat): bool
      requires i < 4
    {
      Has(bits, i) && Stored(i)
    }

    /** One field of MergeFrom(other). */
    function MergeOne(i: nat, other: Flags): Flags
      requires i < 4
    {
      if Has(other.bits, i) then Set(i, other.Get(i)) else this
    }

    function Merge(other: Flags): Flags {
      MergeOne(0, other).MergeOne(1, other).MergeOne(2, other).MergeOne(3, other)
    }
  }

  const NO_FLAGS := Flags(0, false, false, false, false)

  lemma NoFlags()
    ensures NO_FLAGS.View(0).None? && NO_FLAGS.View(1).None? && NO_FLAGS.View(2).None? && NO_FLAGS.View(3).None?
  {
  }

  lemma SetParts(f: Flags, i: nat, v: bool, j: nat)
    requires i < 4 && j < 4
    ensures f.Set(i, v).bits == Raise(f.bits, i) && f.Clear(i).bits == Lower(f.bits, i)
    ensures f.Set(i, v).Stored(j) == if i == j then v else f.Stored(j)
    ensures f.Clear(i).Stored(j) == f.Stored(j)
  {
    hide Raise, Lower;
  }

  lemma SetView(f: Flags, i: nat, v: bool, j: nat)
    requires i < 4 && j < 4
    ensures f.Set(i, v).View(j) == if i == j then Some(v) else f.View(j)
    ensures f.Clear(i).View(j) == if i == j then None else f.View(j)
  {
    hide Has, Raise, Lower, Flags.Set, Flags.Clear, Flags.Stored;
    BitsIndependent(f.bits, i, j);
    SetParts(f, i, v, j);
  }

  lemma SetViews(f: Flags, i: nat, v: bool)
    requires i < 4
    ensures f.Set(i, v).View(0) == if i == 0 then Some(v) else f.View(0)
    ensures f.Set(i, v).View(1) == if i == 1 then Some(v) else f.View(1)
    ensures f.Set(i, v).View(2) == if i == 2 then Some(v) else f.View(2)
    ensures f.Set(i, v).View(3) == if i == 3 then Some(v) else f.View(3)
  {
    hide Flags.View, Flags.Set, Has, Raise;
    SetView(f, i, v, 0);
    SetView(f, i, v, 1);
    SetView(f, i, v, 2);
    SetView(f, i, v, 3);
  }

  lemma RaiseSame(bits: Bits, m: Bits)
    requires m in {1, 2, 4, 8} && bits & m != 0
    ensures bits | m == bits
  {
  }

  /** Setting a present field to its own value changes nothing, as in a merge with itself. */
  lemma SetSame(f: Flags, i: nat)
    requires i < 4
    ensures Has(f.bits, i) ==> f.Set(i, f.Get(i)) == f
  {
    if Has(f.bits, i) { RaiseSame(f.bits, Mask(i)); }
  }

  lemma MergeOneView(f: Flags, g: Flags, i: nat, j: nat)
    requires i < 4 && j < 4
    ensures f.MergeOne(i, g).View(j) == if i == j && g.View(i).Some? then g.View(i) else f.View(j)
  {
    SetView(f, i, g.Get(i), j);
    hide Has, Raise, Lower;
  }

  lemma MergeView(f: Flags, g: Flags, j: nat)
    requires j < 4
    ensures f.Merge(g).View(j) == if g.View(j).Some? then g.View(j) else f.View(j)
  {
    hide Has, Raise, Lower;
    var f0 := f.MergeOne(0, g);
    var f1 := f0.MergeOne(1, g);
    var f2 := f1.MergeOne(2, g);
    MergeOneView(f, g, 0, j);
    MergeOneView(f0, g, 1, j);
    MergeOneView(f1, g, 2, j);
    MergeOneView(f2, g, 3, j);
  }

  // ------------------------------------------------------------ runs of calls

  /** A call that touches the four fields. `Reparse` writes the message and parses the bytes
      into a new object. */
  datatype Call = Put(i: nat, v: bool) | Drop(i: nat) | Copy | MergeWith(other: Flags) | Reparse

  predicate CallOk(c: Call) { c.Put? || c.Drop? ==> c.i < 4 }

  predicate CallsOk(cs: seq<Call>) { forall k :: 0 <= k < |cs| ==> CallOk(cs[k]) }

  /** Parsing: one setter call for each field written, which is each field present. */
  function Reparsed(f: Flags): Flags {
    NO_FLAGS.MergeOne(0, f).MergeOne(1, f).MergeOne(2, f).MergeOne(3, f)
  }

  function Do(f: Flags, c: Call): Flags
    requires CallOk(c)
  {
    match c
    case Put(i, v) => f.Set(i, v)
    case Drop(i) => f.Clear(i)
    case Copy => f
    case MergeWith(g) => f.Merge(g)
    case Reparse => Reparsed(f)
  }

  function DoAll(f: Flags, cs: seq<Call>): Flags
    requires CallsOk(cs)
    decreases |cs|
  {
    if cs == [] then f else DoAll(Do(f, cs[0]), cs[1..])
  }

  /** One call seen from field `j` alone. */
  function FieldStep(o: Option<bool>, j: nat, c: Call): Option<bool>
    requires j < 4
  {
    match c
    case Put(i, v) => if i == j then Some(v) else o
    case Drop(i) => if i == j then None else o
    case MergeWith(g) => if g.View(j).Some? then g.View(j) else o
    case _ => o
  }

  /** One field on its own: what the calls do to an optional bool that shares no state with
      the other three and stores nothing while absent. */
  function FieldAfter(o: Option<bool>, j: nat, cs: seq<Call>): Option<bool>
    requires j < 4
    decreases |cs|
  {
    if cs == [] then o else FieldAfter(FieldStep(o, j, cs[0]), j, cs[1..])
  }

  lemma {:induction false} FieldAfterSnoc(o: Option<bool>, j: nat, cs: seq<Call>, c: Call)
    requires j < 4
    ensures FieldAfter(o, j, cs + [c]) == FieldStep(FieldAfter(o, j, cs), j, c)
    decreases |cs|
  {
    hide FieldStep;
    if cs == [] {
      assert (cs + [c])[1..] == [];
    } else {
      assert (cs + [c])[1..] == cs[1..] + [c];
      FieldAfterSnoc(FieldStep(o, j, cs[0]), j, cs[1..], c);
    }
  }

  lemma ReparsedView(f: Flags, j: nat)
    requires j < 4
    ensures Reparsed(f).View(j) == f.View(j)
  {
    MergeView(NO_FLAGS, f, j);
    NoBits(j);
  }

  /** Over every run of calls each field behaves as an optional bool of its own. */
  lemma {:induction false} FieldsIndependent(f: Flags, j: nat, cs: seq<Call>)
    requires j < 4 && CallsOk(cs)
    ensures DoAll(f, cs).View(j) == FieldAfter(f.View(j), j, cs)
    decreases |cs|
  {
    if cs != [] {
      hide Flags.Set, Flags.Clear, Flags.View, Flags.Merge, Reparsed;
      match cs[0] {
        case Put(i, v) => SetView(f, i, v, j);
        case Drop(i) => SetView(f, i, false, j);
        case MergeWith(g) => MergeView(f, g, j);
        case Reparse => ReparsedView(f, j);
        case Copy =>
      }
      FieldsIndependent(Do(f, cs[0]), j, cs[1..]);
    }
  }

  /** What Clear leaves stored is never seen: objects that show the same fields now show the
      same fields after every run of calls. */
  lemma StaleValuesUnseen(f: Flags, g: Flags, j: nat, cs: seq<Call>)
    requires j < 4 && CallsOk(cs) && f.View(j) == g.View(j)
    ensures DoAll(f, cs).View(j) == DoAll(g, cs).View(j)
    ensures DoAll(f, cs).Get(j) == DoAll(g, cs).Get(j)
  {
    FieldsIndependent(f, j, cs);
    FieldsIndependent(g, j, cs);
  }
}
