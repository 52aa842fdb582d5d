/** The byte level of the wire format: base-128 varints, tags, records.

    The generated classes call the Protocol Buffers runtime for these; they are
    modelled after the Protocol Buffers Encoding guide, sections "Base 128 Varints",
    "Message Structure" and "Length-Delimited Records".
 */
module Wire {
  import opened Seqs

  datatype Option<+T> = None | Some(value: T) {
    predicate IsFailure() { None? }

    function PropagateFailure<U>(): Option<U>
      requires None?
    {
      None
    }

    function Extract(): T
      requires Some?
    {
      value
    }
  }

  type byte = x: int | 0 <= x < 256

  const TWO_31: int := 0x8000_0000
  const TWO_32: int := 0x1_0000_0000
  const TWO_63: int := 0x8000_0000_0000_0000
  const TWO_64: int := 0x1_0000_0000_0000_0000

  /** A value read from the front of a byte sequence, and how many bytes it took. */
  datatype Token<+T> = Token(value: T, len: nat)

  // ---------------------------------------------------------------- varints

  function PutVarint(v: nat): (bs: seq<byte>)
    ensures |bs| >= 1
  {
    if v < 128 then [v] else [128 + v % 128] + PutVarint(v / 128)
  }

  function GetVarint(b: seq<byte>): (t: Option<Token<nat>>)
    ensures t.Some? ==> 1 <= t.value.len <= |b|
  {
    if b == [] then None
    else if b[0] < 128 then Some(Token(b[0], 1))
    else match GetVarint(b[1..])
      case None => None
      case Some(Token(v, k)) => Some(Token(b[0] - 128 + 128 * v, k + 1))
  }

  /** The size predictor of the runtime: how many bytes a varint will take. */
  function VarintSize(v: nat): nat {
    if v < 128 then 1 else 1 + VarintSize(v / 128)
  }

  lemma {:induction false} VarintRoundTrip(v: nat, rest: seq<byte>)
    ensures GetVarint(PutVarint(v) + rest) == Some(Token(v, |PutVarint(v)|))
  {
    if v >= 128 {
      VarintRoundTrip(v / 128, rest);
      Head(PutVarint(v), rest);
    }
  }

  lemma {:induction false} VarintSizeIsLength(v: nat)
    ensures VarintSize(v) == |PutVarint(v)|
  {
    if v >= 128 { VarintSizeIsLength(v / 128); }
  }

  /** A 64-bit value never needs more than ten bytes. */
  lemma VarintAtMostTen(v: nat)
    requires v < TWO_64
    ensures |PutVarint(v)| <= 10
  {
    LengthBound(v, 10, TWO_64);
  }

  lemma {:induction false} LengthBound(v: nat, n: nat, bound: nat)
    requires v < bound && n >= 1
    requires bound <= Pow128(n)
    ensures |PutVarint(v)| <= n
  {
    if v >= 128 { LengthBound(v / 128, n - 1, Pow128(n - 1)); }
  }

  function Pow128(n: nat): nat {
    if n == 0 then 1 else 128 * Pow128(n - 1)
  }

  /** What was read does not change when more bytes follow. */
  lemma {:induction false} VarintStable(a: seq<byte>, b: seq<byte>)
    requires GetVarint(a).Some?
    ensures GetVarint(a + b) == GetVarint(a)
  {
    if a[0] >= 128 {
      VarintStable(a[1..], b);
      Head(a, b);
    }
  }

  // ---------------------------------------------------------------- records

  /** The payload of one field record; the constructor is its wire type. */
  datatype Payload =
    | Varint(v: nat)
    | Fixed64(bs: seq<byte>)
    | Len(bs: seq<byte>)
    | Fixed32(bs: seq<byte>)

  /** One field record: field number and payload. */
  datatype Rec = Rec(num: nat, payload: Payload)

  function WireType(p: Payload): (w: nat)
    ensures w < 8
  {
    match p
    case Varint(_) => 0
    case Fixed64(_) => 1
    case Len(_) => 2
    case Fixed32(_) => 5
  }

  function Tag(num: nat, p: Payload): nat { 8 * num + WireType(p) }

  predicate PayloadOk(p: Payload) {
    match p
    case Varint(v) => v < TWO_64
    case Fixed64(bs) => |bs| == 8
    case Len(_) => true
    case Fixed32(bs) => |bs| == 4
  }

  /** Records that can appear on the wire: field numbers fit a 32-bit tag and are not 0. */
  predicate RecOk(r: Rec) { 1 <= r.num < 0x2000_0000 && PayloadOk(r.payload) }

  predicate AllOk(rs: seq<Rec>) { forall i :: 0 <= i < |rs| ==> RecOk(rs[i]) }

  function PutBody(p: Payload): seq<byte> {
    match p
    case Varint(v) => PutVarint(v)
    case Fixed64(bs) => bs
    case Len(bs) => PutVarint(|bs|) + bs
    case Fixed32(bs) => bs
  }

  function PutRec(r: Rec): (b: seq<byte>)
    ensures |b| >= 1
  {
    PutVarint(Tag(r.num, r.payload)) + PutBody(r.payload)
  }

  /** A tag is a 32-bit varint; field number 0 is rejected. */
  function GetTag(b: seq<byte>): (t: Option<Token<nat>>)
    ensures t.Some? ==> 1 <= t.value.len <= |b| && 8 <= t.value.value < TWO_32
  {
    match GetVarint(b)
    case None => None
    case Some(Token(v, k)) =>
      if k <= 10 && v % TWO_32 >= 8 then Some(Token(v % TWO_32, k)) else None
  }

  /** A 64-bit varint takes at most ten bytes; higher bits are dropped. */
  function GetUInt64(b: seq<byte>): (t: Option<Token<nat>>)
    ensures t.Some? ==> 1 <= t.value.len <= |b| && t.value.value < TWO_64
  {
    match GetVarint(b)
    case None => None
    case Some(Token(v, k)) => if k <= 10 then Some(Token(v % TWO_64, k)) else None
  }

  /** A length prefix and the bytes it announces; never reads past the end. A prefix of more
      than ten bytes is refused unless the length has no shorter one. */
  function GetLen(b: seq<byte>): (t: Option<Token<seq<byte>>>)
    ensures t.Some? ==> 1 <= t.value.len <= |b| && |t.value.value| < |b|
  {
    match GetVarint(b)
    case None => None
    case Some(Token(n, k)) =>
      if (k <= 10 || k == VarintSize(n)) && k + n <= |b| then Some(Token(b[k..k + n], k + n)) else None
  }

  function GetFixed(n: nat, b: seq<byte>): (t: Option<Token<seq<byte>>>)
    ensures t.Some? ==> t.value.len == n <= |b| && |t.value.value| == n
  {
    if n <= |b| then Some(Token(b[..n], n)) else None
  }

  function AsPayload<T>(t: Option<Token<T>>, f: T -> Payload): Option<Token<Payload>> {
    match t
    case None => None
    case Some(Token(v, k)) => Some(Token(f(v), k))
  }

  /** The payload that follows a tag of wire type `wt`. Groups (3, 4) and 6, 7 are rejected. */
  function GetBody(wt: nat, b: seq<byte>): (t: Option<Token<Payload>>)
    ensures t.Some? ==> t.value.len <= |b| && PayloadOk(t.value.value) && WireType(t.value.value) == wt
  {
    if wt == 0 then AsPayload(GetUInt64(b), v => Varint(v))
    else if wt == 1 then AsPayload(GetFixed(8, b), bs => Fixed64(bs))
    else if wt == 2 then AsPayload(GetLen(b), bs => Len(bs))
    else if wt == 5 then AsPayload(GetFixed(4, b), bs => Fixed32(bs))
    else None
  }

  function GetRec(b: seq<byte>): (t: Option<Token<Rec>>)
    ensures t.Some? ==> 1 <= t.value.len <= |b| && RecOk(t.value.value)
  {
    match GetTag(b)
    case None => None
    case Some(Token(tag, k)) =>
      match GetBody(tag % 8, b[k..])
      case None => None
      case Some(Token(p, n)) => Some(Token(Rec(tag / 8, p), k + n))
  }

  lemma LenRoundTrip(bs: seq<byte>, rest: seq<byte>)
    ensures GetLen(PutVarint(|bs|) + bs + rest) == Some(Token(bs, |PutVarint(|bs|)| + |bs|))
  {
    var p := PutVarint(|bs|);
    Assoc(p, bs, rest);
    VarintRoundTrip(|bs|, bs + rest);
    VarintSizeIsLength(|bs|);
    hide PutVarint, GetVarint, VarintSize;
    Parts(p, bs);
    TakeFirst(p + bs, rest, |p|, |p| + |bs|);
  }

  lemma BodyRoundTrip(p: Payload, rest: seq<byte>)
    requires PayloadOk(p)
    ensures GetBody(WireType(p), PutBody(p) + rest) == Some(Token(p, |PutBody(p)|))
  {
    match p
    case Varint(v) =>
      VarintRoundTrip(v, rest);
      VarintAtMostTen(v);
      hide PutVarint, GetVarint;
    case Len(bs) =>
      LenRoundTrip(bs, rest);
      hide PutVarint, GetVarint, GetLen;
    case Fixed64(bs) => Parts(bs, rest);
    case Fixed32(bs) => Parts(bs, rest);
  }

  lemma TagRoundTrip(r: Rec, rest: seq<byte>)
    requires RecOk(r)
    ensures GetTag(PutVarint(Tag(r.num, r.payload)) + rest)
            == Some(Token(Tag(r.num, r.payload), |PutVarint(Tag(r.num, r.payload))|))
  {
    VarintRoundTrip(Tag(r.num, r.payload), rest);
    VarintAtMostTen(Tag(r.num, r.payload));
    hide PutVarint, GetVarint;
  }

  lemma RecRoundTrip(r: Rec, rest: seq<byte>)
    requires RecOk(r)
    ensures GetRec(PutRec(r) + rest) == Some(Token(r, |PutRec(r)|))
  {
    hide PutVarint, GetVarint, GetTag, GetBody, PutBody;
    var tag, body := PutVarint(Tag(r.num, r.payload)), PutBody(r.payload);
    Assoc(tag, body, rest);
    TagRoundTrip(r, body + rest);
    Parts(tag, body + rest);
    BodyRoundTrip(r.payload, rest);
  }

  lemma TagStable(a: seq<byte>, b: seq<byte>)
    requires GetTag(a).Some?
    ensures GetTag(a + b) == GetTag(a)
  {
    VarintStable(a, b);
  }

  lemma LenStable(a: seq<byte>, b: seq<byte>)
    requires GetLen(a).Some?
    ensures GetLen(a + b) == GetLen(a)
  {
    VarintStable(a, b);
    hide GetVarint;
    var n, k := GetVarint(a).value.value, GetVarint(a).value.len;
    TakeFirst(a, b, k, k + n);
  }

  lemma FixedStable(n: nat, a: seq<byte>, b: seq<byte>)
    requires n <= |a|
    ensures GetFixed(n, a + b) == GetFixed(n, a)
  {
    TakeFirst(a, b, 0, n);
  }

  lemma BodyStable(wt: nat, a: seq<byte>, b: seq<byte>)
    requires GetBody(wt, a).Some?
    ensures GetBody(wt, a + b) == GetBody(wt, a)
  {
    hide GetVarint, GetLen;
    if wt == 0 { VarintStable(a, b); }
    if wt == 1 { FixedStable(8, a, b); }
    if wt == 2 { LenStable(a, b); }
    if wt == 5 { FixedStable(4, a, b); }
  }

  lemma RecStable(a: seq<byte>, b: seq<byte>)
    requires GetRec(a).Some?
    ensures GetRec(a + b) == GetRec(a)
  {
    hide GetTag, GetBody;
    var k := GetTag(a).value.len;
    TagStable(a, b);
    DropFirst(a, b, k);
    BodyStable(GetTag(a).value.value % 8, a[k..], b);
  }

  // ---------------------------------------------------------------- record lists

  function PutRecs(rs: seq<Rec>): seq<byte> {
    if rs == [] then [] else PutRec(rs[0]) + PutRecs(rs[1..])
  }

  /** The records of a whole message body, or None when the bytes are malformed. */
  function Records(b: seq<byte>): (rs: Option<seq<Rec>>)
    ensures rs.Some? ==> AllOk(rs.value)
  {
    if b == [] then Some([])
    else match GetRec(b)
      case None => None
      case Some(Token(r, k)) =>
        match Records(b[k..])
        case None => None
        case Some(rs) => Some([r] + rs)
  }

  lemma {:induction false} PutRecsConcat(a: seq<Rec>, b: seq<Rec>)
    ensures PutRecs(a + b) == PutRecs(a) + PutRecs(b)
  {
    hide PutRec;
    if a == [] {
      Unit(b);
      Unit(PutRecs(b));
    } else {
      PutRecsConcat(a[1..], b);
      Head(a, b);
      Assoc(PutRec(a[0]), PutRecs(a[1..]), PutRecs(b));
    }
  }

  /** One unfolding of Records. */
  lemma RecordsUnfold(b: seq<byte>, r: Rec, k: nat, rest: seq<byte>)
    requires GetRec(b) == Some(Token(r, k))
    requires b[k..] == rest
    ensures Records(b) == Append(Some([r]), Records(rest))
  {
  }

  /** Concatenation of two readings, malformed if either is. */
  function Append(a: Option<seq<Rec>>, b: Option<seq<Rec>>): Option<seq<Rec>> {
    if a.None? || b.None? then None else Some(a.value + b.value)
  }

  /** Reading what was written gives the records back. */
  lemma {:induction false} RecordsRoundTrip(rs: seq<Rec>)
    requires AllOk(rs)
    ensures Records(PutRecs(rs)) == Some(rs)
  {
    if rs != [] {
      hide GetRec, PutRec, RecOk;
      var r, tail := rs[0], rs[1..];
      RecRoundTrip(r, PutRecs(tail));
      RecordsRoundTrip(tail);
      Parts(PutRec(r), PutRecs(tail));
      RecordsUnfold(PutRecs(rs), r, |PutRec(r)|, PutRecs(tail));
      Cons(rs);
    }
  }

  lemma AppendAssociative(a: Option<seq<Rec>>, b: Option<seq<Rec>>, c: Option<seq<Rec>>)
    ensures Append(Append(a, b), c) == Append(a, Append(b, c))
  {
    if a.Some? && b.Some? && c.Some? { Assoc(a.value, b.value, c.value); }
  }

  lemma FirstOfConcat(a: seq<byte>, b: seq<byte>)
    requires GetRec(a).Some?
    ensures GetRec(a + b) == GetRec(a)
    ensures (a + b)[GetRec(a).value.len..] == a[GetRec(a).value.len..] + b
  {
    hide GetRec;
    RecStable(a, b);
    DropFirst(a, b, GetRec(a).value.len);
  }

  /** A well-formed body followed by another body reads as the records of both. */
  lemma {:induction false} RecordsConcat(a: seq<byte>, b: seq<byte>)
    requires Records(a).Some?
    ensures Records(a + b) == Append(Records(a), Records(b))
    decreases |a|
  {
    hide GetRec;
    if a == [] {
      Unit(b);
      if Records(b).Some? { Unit(Records(b).value); }
    } else {
      hide Append;
      var t := GetRec(a).value;
      var rest := a[t.len..];
      calc {
        Records(a + b);
        { FirstOfConcat(a, b); RecordsUnfold(a + b, t.value, t.len, rest + b); }
        Append(Some([t.value]), Records(rest + b));
        { RecordsConcat(rest, b); }
        Append(Some([t.value]), Append(Records(rest), Records(b)));
        { AppendAssociative(Some([t.value]), Records(rest), Records(b)); }
        Append(Append(Some([t.value]), Records(rest)), Records(b));
        { RecordsUnfold(a, t.value, t.len, rest); }
        Append(Records(a), Records(b));
      }
    }
  }
}
