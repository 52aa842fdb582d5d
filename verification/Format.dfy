/** What the bytes are. The statements here use literal constants and the grouping of bytes only,
    and say what the reading and writing functions compute. */
module Format {
  import opened Seqs
  import opened Wire
  import opened Codec
  import opened Refinement

  // ---------------------------------------------------------------- varints

  /** One base-128 group: only the last byte is below 128. */
  predicate IsGroup(g: seq<byte>) {
    |g| >= 1 && g[|g| - 1] < 128 && forall i :: 0 <= i < |g| - 1 ==> g[i] >= 128
  }

  /** The sum of (g[i] % 128) * 128^i. */
  function GroupValue(g: seq<byte>): nat {
    if g == [] then 0 else g[0] % 128 + 128 * GroupValue(g[1..])
  }

  /** The group is the shortest for its value. */
  predicate Shortest(g: seq<byte>) { |g| > 1 ==> g[|g| - 1] != 0 }

  /** A varint is written as the shortest group with its value. */
  lemma {:induction false} VarintWritten(v: nat)
    ensures IsGroup(PutVarint(v)) && GroupValue(PutVarint(v)) == v && Shortest(PutVarint(v))
  {
    if v >= 128 {
      var rest := PutVarint(v / 128);
      VarintWritten(v / 128);
      Parts([128 + v % 128], rest);
      assert PutVarint(v)[1..] == rest;
      if |rest| == 1 { assert rest[0] == v / 128; }
    }
  }

  /** Reading a varint takes the first group and its value. */
  lemma {:induction false} VarintRead(b: seq<byte>, v: nat, k: nat)
    ensures GetVarint(b) == Some(Token(v, k)) <==>
            1 <= k <= |b| && IsGroup(b[..k]) && GroupValue(b[..k]) == v
  {
    if b == [] {
    } else if b[0] < 128 {
      if 1 <= k <= |b| && IsGroup(b[..k]) {
        assert k == 1 by { assert b[..k][0] == b[0]; }
        assert b[..1][1..] == [];
      }
      assert b[..1][1..] == [];
    } else {
      if k >= 2 && k <= |b| {
        var g := b[..k];
        assert g[1..] == b[1..][..k - 1] && g[0] == b[0];
        assert IsGroup(g) <==> IsGroup(g[1..]) by {
          assert forall i :: 1 <= i < |g| ==> g[i] == g[1..][i - 1];
          assert forall i :: 0 <= i < |g| - 1 ==> g[1..][i] == g[i + 1];
        }
        VarintRead(b[1..], GroupValue(g[1..]), k - 1);
      }
      if GetVarint(b[1..]).Some? {
        var t := GetVarint(b[1..]).value;
        VarintRead(b[1..], t.value, t.len);
      }
    }
  }

  // ---------------------------------------------------------------- records

  /** The wire type of a payload. */
  function TypeNumber(p: Payload): nat {
    match p
    case Varint(_) => 0
    case Fixed64(_) => 1
    case Len(_) => 2
    case Fixed32(_) => 5
  }

  /** A tag in `t` bytes: a group of at most ten bytes whose value modulo 2^32 is not below 8. */
  predicate IsTag(b: seq<byte>, t: nat, tag: nat) {
    && 1 <= t <= 10 && t <= |b| && IsGroup(b[..t])
    && tag == GroupValue(b[..t]) % 0x1_0000_0000 && tag >= 8
  }

  /** A payload of wire type `wt` in the first `n` bytes. */
  ghost predicate IsPayload(wt: nat, b: seq<byte>, p: Payload, n: nat) {
    && n <= |b|
    && match p
       case Varint(v) =>
         wt == 0 && 1 <= n <= 10 && IsGroup(b[..n]) && v == GroupValue(b[..n]) % 0x1_0000_0000_0000_0000
       case Fixed64(bs) => wt == 1 && n == 8 && bs == b[..8]
       case Len(bs) =>
         && wt == 2
         && exists k :: 1 <= k <= n && IsPrefix(b, k, |bs|) && n == k + |bs| && bs == b[k..n]
       case Fixed32(bs) => wt == 5 && n == 4 && bs == b[..4]
  }

  /** A length prefix in `k` bytes; longer than ten only if it is the shortest for its length. */
  predicate IsPrefix(b: seq<byte>, k: nat, length: nat) {
    && 1 <= k <= |b| && IsGroup(b[..k]) && GroupValue(b[..k]) == length
    && (k <= 10 || Shortest(b[..k]))
  }

  /** A record is its tag, 8 times the field number plus the wire type, and its payload. */
  lemma RecordWritten(r: Rec)
    ensures PutRec(r) == PutVarint(8 * r.num + TypeNumber(r.payload)) +
            match r.payload
            case Varint(v) => PutVarint(v)
            case Fixed64(bs) => bs
            case Len(bs) => PutVarint(|bs|) + bs
            case Fixed32(bs) => bs
  {
  }

  /** Reading a tag. */
  lemma TagRead(b: seq<byte>, tag: nat, t: nat)
    ensures GetTag(b) == Some(Token(tag, t)) <==> IsTag(b, t, tag)
  {
    if GetVarint(b).Some? { VarintRead(b, GetVarint(b).value.value, GetVarint(b).value.len); }
    if IsTag(b, t, tag) { VarintRead(b, GroupValue(b[..t]), t); }
  }

  /** A group longer than the shortest for its value ends in a zero byte. */
  lemma {:induction false} ShortestIsWritten(g: seq<byte>)
    requires IsGroup(g)
    ensures Shortest(g) <==> |g| == VarintSize(GroupValue(g))
    ensures |g| >= VarintSize(GroupValue(g))
  {
    if |g| == 1 {
      assert g[1..] == [];
    } else {
      assert forall i :: 1 <= i < |g| ==> g[i] == g[1..][i - 1];
      ShortestIsWritten(g[1..]);
      var v := GroupValue(g[1..]);
      assert GroupValue(g) / 128 == v;
      if v == 0 { ZeroGroup(g[1..]); }
    }
  }

  lemma {:induction false} ZeroGroup(g: seq<byte>)
    requires IsGroup(g) && GroupValue(g) == 0
    ensures g[|g| - 1] == 0
  {
    if |g| > 1 {
      assert forall i :: 1 <= i < |g| ==> g[i] == g[1..][i - 1];
      ZeroGroup(g[1..]);
    }
  }

  /** Reading a payload of each wire type; 3, 4, 6 and 7 are refused. */
  lemma PayloadRead(wt: nat, b: seq<byte>, p: Payload, n: nat)
    ensures GetBody(wt, b) == Some(Token(p, n)) <==> IsPayload(wt, b, p, n)
  {
    if GetVarint(b).Some? {
      var t := GetVarint(b).value;
      VarintRead(b, t.value, t.len);
      ShortestIsWritten(b[..t.len]);
    }
    match p {
      case Varint(_) => if IsPayload(wt, b, p, n) { VarintRead(b, GroupValue(b[..n]), n); }
      case Len(bs) =>
        if IsPayload(wt, b, p, n) {
          var k :| 1 <= k <= n && IsPrefix(b, k, |bs|) && n == k + |bs| && bs == b[k..n];
          VarintRead(b, |bs|, k);
          ShortestIsWritten(b[..k]);
        }
        if GetBody(wt, b) == Some(Token(p, n)) {
          assert IsPrefix(b, GetVarint(b).value.len, |bs|);
        }
      case _ =>
    }
  }

  /** Reading a record: a tag, and the payload its low three bits announce. */
  lemma RecordRead(b: seq<byte>, r: Rec, n: nat)
    ensures GetRec(b) == Some(Token(r, n)) <==>
            exists t: nat, tag: nat ::
              IsTag(b, t, tag) && t <= n <= |b| && r.num == tag / 8 && IsPayload(tag % 8, b[t..], r.payload, n - t)
  {
    hide IsTag, IsPayload;
    if GetRec(b) == Some(Token(r, n)) {
      var x := GetTag(b).value;
      TagRead(b, x.value, x.len);
      PayloadRead(x.value % 8, b[x.len..], r.payload, n - x.len);
      assert IsTag(b, x.len, x.value);
    }
    if t: nat, tag: nat :|
      IsTag(b, t, tag) && t <= n <= |b| && r.num == tag / 8 && IsPayload(tag % 8, b[t..], r.payload, n - t)
    {
      TagRead(b, tag, t);
      PayloadRead(tag % 8, b[t..], r.payload, n - t);
    }
  }

  // ---------------------------------------------------------------- numbers

  /** The numbers a field of the kind holds. */
  predicate InKind(k: NumKind, v: int) {
    match k
    case U32 => 0 <= v < 0x1_0000_0000
    case U64 => 0 <= v < 0x1_0000_0000_0000_0000
    case I64 => -0x8000_0000_0000_0000 <= v < 0x8000_0000_0000_0000
    case Enum => -0x8000_0000 <= v < 0x8000_0000
    case Bool => v == 0 || v == 1
  }

  /** The number a field of the kind takes from the 64-bit word `w`. */
  predicate Reads(k: NumKind, w: nat, v: int) {
    match k
    case Bool => v == if w == 0 then 0 else 1
    case U32 => InKind(k, v) && (w - v) % 0x1_0000_0000 == 0
    case Enum => InKind(k, v) && (w - v) % 0x1_0000_0000 == 0
    case _ => InKind(k, v) && (w - v) % 0x1_0000_0000_0000_0000 == 0
  }

  lemma RangeMeans(k: NumKind, v: Val)
    ensures InRange(k, v) <==> v.N? && InKind(k, v.n)
  {
  }

  /** A number is written as the 64-bit word congruent to it: negative numbers in two's complement. */
  lemma NumberWritten(k: NumKind, v: int)
    requires InKind(k, v)
    ensures InRange(k, N(v)) && ToWire(k, N(v)).Varint?
    ensures var w := ToWire(k, N(v)).v;
            0 <= w < 0x1_0000_0000_0000_0000 && (w - v) % 0x1_0000_0000_0000_0000 == 0
    ensures ToWire(k, N(v)) == Varint(v % 0x1_0000_0000_0000_0000)
  {
  }

  /** The number taken from a word is the one in the kind's range congruent to it. */
  lemma NumberTaken(k: NumKind, w: nat, v: int)
    requires w < 0x1_0000_0000_0000_0000
    ensures FromWire(k, Varint(w)) == N(v) <==> Reads(k, w, v)
  {
    var x := FromWire(k, Varint(w)).n;
    Taken(k, w);
    if Reads(k, w, v) && !k.Bool? {
      var d := if k.U32? || k.Enum? then 0x1_0000_0000 else 0x1_0000_0000_0000_0000;
      Congruent(w, v, x, d);
    }
  }

  lemma Taken(k: NumKind, w: nat)
    requires w < 0x1_0000_0000_0000_0000
    ensures FromWire(k, Varint(w)).N? && Reads(k, w, FromWire(k, Varint(w)).n)
  {
  }

  lemma Congruent(w: int, v: int, x: int, d: int)
    requires d > 0 && (w - v) % d == 0 && (w - x) % d == 0 && -d < v - x < d
    ensures v == x
  {
    var p, q := (w - v) / d, (w - x) / d;
    assert v - x == d * (q - p);
    if q > p { Multiple(d, q - p); } else if q < p { Multiple(d, p - q); }
  }

  lemma Multiple(d: int, n: int)
    requires d > 0 && n >= 1
    ensures d * n >= d
  {
  }

  // ---------------------------------------------------------- packed payloads

  function Flat(gs: seq<seq<byte>>): seq<byte> { if gs == [] then [] else gs[0] + Flat(gs[1..]) }

  /** The payload is a sequence of varints. */
  ghost predicate Cut(b: seq<byte>, gs: seq<seq<byte>>) {
    b == Flat(gs) && forall i :: 0 <= i < |gs| ==> IsGroup(gs[i]) && |gs[i]| <= 10
  }

  /** The values of a packed payload, group by group. */
  ghost predicate Holds(k: NumKind, gs: seq<seq<byte>>, vs: seq<Val>) {
    && |vs| == |gs|
    && forall i :: 0 <= i < |gs| ==> vs[i].N? && Reads(k, GroupValue(gs[i]) % 0x1_0000_0000_0000_0000, vs[i].n)
  }

  /** An accepted packed payload is a sequence of varints, and gives their values. */
  lemma {:induction false} PackedRead(k: NumKind, b: seq<byte>) returns (gs: seq<seq<byte>>)
    requires Unpack(k, b).Some?
    ensures Cut(b, gs) && Holds(k, gs, Unpack(k, b).value)
  {
    gs := [];
    if b != [] {
      var w, n := GetUInt64(b).value.value, GetUInt64(b).value.len;
      UnpackStep(k, b, w, n);
      VarintRead(b, GetVarint(b).value.value, n);
      Taken(k, w);
      hide Unpack, FromWire, GetVarint;
      var rest := PackedRead(k, b[n..]);
      gs := [b[..n]] + rest;
      OneMoreGroup(k, b, n, rest, Unpack(k, b[n..]).value, FromWire(k, Varint(w)));
    }
  }

  lemma OneMoreGroup(k: NumKind, b: seq<byte>, n: nat, gs: seq<seq<byte>>, vs: seq<Val>, v: Val)
    requires 1 <= n <= |b| && n <= 10 && IsGroup(b[..n]) && Cut(b[n..], gs) && Holds(k, gs, vs)
    requires v.N? && Reads(k, GroupValue(b[..n]) % 0x1_0000_0000_0000_0000, v.n)
    ensures Cut(b, [b[..n]] + gs) && Holds(k, [b[..n]] + gs, [v] + vs)
  {
    hide IsGroup, GroupValue, Reads;
    assert ([b[..n]] + gs)[1..] == gs;
    assert b == b[..n] + b[n..];
  }

  /** Every sequence of varints is accepted. */
  lemma {:induction false} PackedAccepted(k: NumKind, b: seq<byte>, gs: seq<seq<byte>>)
    requires Cut(b, gs)
    ensures Unpack(k, b).Some? && Holds(k, gs, Unpack(k, b).value)
    decreases |gs|
  {
    if gs == [] { return; }
    FirstGroup(b, gs);
    var n := |gs[0]|;
    VarintRead(b, GroupValue(gs[0]), n);
    var w := GroupValue(gs[0]) % 0x1_0000_0000_0000_0000;
    UnpackStep(k, b, w, n);
    Taken(k, w);
    hide Unpack, FromWire, GetVarint, IsGroup, Reads;
    PackedAccepted(k, b[n..], gs[1..]);
  }

  /** A packed payload is accepted exactly when it is a sequence of varints. */
  lemma PackedExactly(k: NumKind, b: seq<byte>)
    ensures Unpack(k, b).Some? <==> exists gs :: Cut(b, gs)
  {
    if Unpack(k, b).Some? { var gs := PackedRead(k, b); }
    if gs :| Cut(b, gs) { PackedAccepted(k, b, gs); }
  }

  lemma FirstGroup(b: seq<byte>, gs: seq<seq<byte>>)
    requires Cut(b, gs) && gs != []
    ensures |gs[0]| <= |b| && b[..|gs[0]|] == gs[0] && b[|gs[0]|..] == Flat(gs[1..])
  {
    Parts(gs[0], Flat(gs[1..]));
  }

  /** A list is packed as the shortest varint of each number, in order. */
  lemma {:induction false} PackedWritten(k: NumKind, vs: seq<Val>) returns (gs: seq<seq<byte>>)
    requires AllIn(k, vs)
    ensures Cut(PackBytes(k, vs), gs) && |gs| == |vs|
    ensures forall i :: 0 <= i < |vs| ==>
              vs[i].N? && gs[i] == PutVarint(vs[i].n % 0x1_0000_0000_0000_0000)
  {
    gs := [];
    if vs != [] {
      RangeMeans(k, vs[0]);
      NumberWritten(k, vs[0].n);
      var w := vs[0].n % 0x1_0000_0000_0000_0000;
      VarintAtMostTen(w);
      VarintWritten(w);
      var rest := PackedWritten(k, vs[1..]);
      gs := [PutVarint(w)] + rest;
      assert gs[1..] == rest;
    }
  }
}
