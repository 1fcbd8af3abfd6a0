/**
 Variable-length integers and zigzag coding (sylar/bytearry.cpp).

 Unsigned values are naturals below 2^32 or 2^64, so `& 0x7F`, `| 0x80`, `>> 7` and `<< 7` are
 `% 128`, `+ 128`, `/ 128` and `* 128`; the width shows where bits are cut off.
 */
module Varint {

  import opened Bytes

  // ---------------------------------------------------------------- varints

  // Seven bits a byte, low bits first, the top bit set on all but the last.
  function Encode(v: nat): (s: seq<byte>)
    ensures s != []
  {
    if v >= 128 then [(v % 128 + 128) as byte] + Encode(v / 128) else [v as byte]
  }

  datatype Decoded = Short | Got(value: nat, used: nat)

  // What at most `limit` bytes of `s` mean: reading stops at the first byte below 128 or after
  // `limit` bytes, and is Short when the data ends before.
  function Decode(s: seq<byte>, limit: nat): Decoded
    decreases limit
  {
    if limit == 0 then Got(0, 0)
    else if s == [] then Short
    else
      var b := s[0] as nat;
      if b < 128 then Got(b, 1)
      else
        match Decode(s[1..], limit - 1)
        case Short => Short
        case Got(v, n) => Got(b % 128 + 128 * v, n + 1)
  }

  // What Encode writes, Decode reads back, and it leaves the rest alone.
  lemma {:induction false} RoundTrip(v: nat, limit: nat, rest: seq<byte>)
    requires |Encode(v)| <= limit
    ensures Decode(Encode(v) + rest, limit) == Got(v, |Encode(v)|)
    decreases v
  {
    var s := Encode(v) + rest;
    if v >= 128 {
      assert s[1..] == Encode(v / 128) + rest;
      RoundTrip(v / 128, limit - 1, rest);
    }
  }

  function Pow128(k: nat): (p: nat)
    ensures p > 0
  {
    if k == 0 then 1 else 128 * Pow128(k - 1)
  }

  // All bytes say that another one follows.
  predicate AllMore(s: seq<byte>) {
    forall i | 0 <= i < |s| :: s[i] >= 128
  }

  // The data ends before the number does exactly when there are fewer bytes than the limit and
  // none of them is a last one.
  lemma {:induction false} ShortExactly(s: seq<byte>, limit: nat)
    ensures Decode(s, limit).Short? <==> |s| < limit && AllMore(s)
    decreases limit
  {
    if limit > 0 && s != [] && s[0] >= 128 {
      ShortExactly(s[1..], limit - 1);
      assert s == [s[0]] + s[1..];
    }
  }

  lemma {:induction false} FrontMore(v: nat, k: nat)
    requires k < |Encode(v)|
    ensures AllMore(Encode(v)[..k])
    decreases v
  {
    if v >= 128 && k > 0 {
      FrontMore(v / 128, k - 1);
      assert Encode(v)[..k] == [Encode(v)[0]] + Encode(v / 128)[..k - 1];
    }
  }

  // Every encoding that is cut short reads as cut short.
  lemma {:induction false} CutIsShort(v: nat, k: nat, limit: nat)
    requires k < |Encode(v)| <= limit
    ensures Decode(Encode(v)[..k], limit) == Short
  {
    FrontMore(v, k);
    ShortExactly(Encode(v)[..k], limit);
  }

  // Reading takes `n` bytes: up to the first that is a last one, or as many as the limit allows.
  predicate Takes(s: seq<byte>, limit: nat, n: nat) {
    n <= |s| && n <= limit && (forall i | 0 <= i < n - 1 :: s[i] >= 128) && (n < limit ==> n > 0 && s[n - 1] < 128)
  }

  // Seven bits of each byte, the i-th byte counted 2^(7i) times.
  function Weighted(s: seq<byte>): nat {
    if s == [] then 0
    else Weighted(s[..|s| - 1]) + s[|s| - 1] as nat % 128 * Pow128(|s| - 1)
  }

  lemma {:induction false} Shift(w: nat, b: nat, n: nat)
    requires n > 0
    ensures 128 * w + b * Pow128(n) == 128 * (w + b * Pow128(n - 1))
  {
    assert b * (128 * Pow128(n - 1)) == 128 * (b * Pow128(n - 1));
  }

  lemma {:induction false} WeightedFirst(s: seq<byte>)
    requires s != []
    ensures Weighted(s) == s[0] as nat % 128 + 128 * Weighted(s[1..])
    decreases |s|
  {
    var n, b := |s| - 1, s[|s| - 1] as nat % 128;
    if n == 0 {
      assert s[..0] == [] && s[1..] == [];
      assert Pow128(0) == 1 && Weighted([]) == 0;
    } else {
      WeightedFirst(s[..n]);
      assert s[..n][1..] == s[1..][..n - 1] && s[..n][0] == s[0];
      assert Weighted(s[1..]) == Weighted(s[1..][..n - 1]) + b * Pow128(n - 1);
      Shift(Weighted(s[1..][..n - 1]), b, n);
    }
  }

  // What a read gives when it gives something.
  lemma {:induction false} GotMeans(s: seq<byte>, limit: nat)
    requires Decode(s, limit).Got?
    ensures var d := Decode(s, limit); Takes(s, limit, d.used) && d.value == Weighted(s[..d.used])
    decreases limit
  {
    var n := Decode(s, limit).used;
    if limit > 0 {
      if s[0] >= 128 {
        GotMeans(s[1..], limit - 1);
        GotMore(s, limit);
      } else {
        assert s[..1] == [s[0]] && [s[0]][1..] == [];
        WeightedFirst(s[..1]);
      }
    }
  }

  lemma {:induction false} GotMore(s: seq<byte>, limit: nat)
    requires limit > 0 && s != [] && s[0] >= 128 && Decode(s[1..], limit - 1).Got?
    requires var d := Decode(s[1..], limit - 1); Takes(s[1..], limit - 1, d.used) && d.value == Weighted(s[1..][..d.used])
    ensures var d := Decode(s, limit); d.Got? && Takes(s, limit, d.used) && d.value == Weighted(s[..d.used])
  {
    var n := Decode(s[1..], limit - 1).used;
    assert s[..n + 1][1..] == s[1..][..n] && s[..n + 1][0] == s[0];
    WeightedFirst(s[..n + 1]);
    assert forall i | 1 <= i <= n :: s[i] == s[1..][i - 1];
  }

  // A value takes at most k bytes exactly when it is below 2^(7k).
  lemma {:induction false} EncodeLength(v: nat, k: nat)
    requires k > 0
    ensures |Encode(v)| <= k <==> v < Pow128(k)
    decreases k
  {
    if v >= 128 && k > 1 {
      EncodeLength(v / 128, k - 1);
    }
  }

  lemma Widths(v: nat)
    ensures v < TWO32 ==> |Encode(v)| <= 5
    ensures v < TWO64 ==> |Encode(v)| <= 10
  {
    assert Pow128(5) == 128 * 128 * 128 * 128 * 128;
    assert Pow128(10) == 128 * 128 * 128 * 128 * 128 * Pow128(5);
    EncodeLength(v, 5);
    EncodeLength(v, 10);
  }

  // ---------------------------------------------------------------- zigzag

  // The two's complement bits of an integer between -2^W and 2^W, cut to W bits, and the W-bit
  // integer that bits stand for; `top` is 2^W.
  function ToBits(v: int, top: nat): int {
    if v < 0 then v + top else v
  }

  function FromBits(u: int, top: nat): int {
    if u < top / 2 then u else u - top
  }

  // Exclusive or with a mask that is all zeros or all ones.
  function XorAll(x: int, ones: bool, top: nat): int {
    if ones then top - 1 - x else x
  }

  // (v << 1) ^ (v >> (W - 1)), where >> copies the sign.
  function EncodeZigzag(v: int, top: nat): int {
    XorAll(ToBits(2 * v, top), v < 0, top)
  }

  // (u >> 1) ^ -(u & 1)
  function DecodeZigzag(u: int, top: nat): int {
    FromBits(XorAll(u / 2, u % 2 == 1, top), top)
  }

  predicate Signed(v: int, top: nat) {
    0 - top <= 2 * v < top
  }

  lemma ZigzagRoundTrip(v: int, top: nat)
    requires top > 0 && top % 2 == 0 && Signed(v, top)
    ensures 0 <= EncodeZigzag(v, top) < top
    ensures EncodeZigzag(v, top) == if v < 0 then -2 * v - 1 else 2 * v
    ensures DecodeZigzag(EncodeZigzag(v, top), top) == v
  {
    ZigzagValue(v, top);
    if v < 0 {
      Halved(-1 - v, 1);
    } else {
      Halved(v, 0);
    }
  }

  lemma Halved(h: int, b: int)
    requires 0 <= b < 2
    ensures (2 * h + b) / 2 == h && (2 * h + b) % 2 == b
  {
  }

  // Zigzag puts 0, -1, 1, -2, 2, … in this order.
  lemma ZigzagValue(v: int, top: nat)
    requires top > 0 && Signed(v, top)
    ensures EncodeZigzag(v, top) == if v < 0 then -2 * v - 1 else 2 * v
  {
  }

  lemma ZigzagOnto(u: nat, top: nat)
    requires top > 0 && top % 2 == 0 && u < top
    ensures Signed(DecodeZigzag(u, top), top) && EncodeZigzag(DecodeZigzag(u, top), top) == u
  {
    var v := DecodeZigzag(u, top);
    assert v == if u % 2 == 1 then -1 - u / 2 else u / 2;
    ZigzagRoundTrip(v, top);
  }

  // A signed value in [-2^(7k-1), 2^(7k-1)) takes at most k bytes, and no other does.
  lemma SmallSigned(v: int, top: nat, k: nat)
    requires top > 0 && top % 2 == 0 && Signed(v, top) && k > 0
    ensures 0 <= EncodeZigzag(v, top)
    ensures |Encode(EncodeZigzag(v, top))| <= k <==> -64 * Pow128(k - 1) <= v < 64 * Pow128(k - 1)
  {
    ZigzagRoundTrip(v, top);
    EncodeLength(EncodeZigzag(v, top), k);
  }

  // ---------------------------------------------------------------- streams of values

  datatype Value = U32(n: nat) | I32(i: int) | U64(n: nat) | I64(i: int)
  datatype Kind = KU32 | KI32 | KU64 | KI64

  predicate Fits(v: Value) {
    match v
    case U32(n) => n < TWO32
    case U64(n) => n < TWO64
    case I32(i) => Signed(i, TWO32)
    case I64(i) => Signed(i, TWO64)
  }

  function KindOf(v: Value): Kind {
    match v case U32(_) => KU32 case I32(_) => KI32 case U64(_) => KU64 case I64(_) => KI64
  }

  // The unsigned number that is written for `v`.
  function Raw(v: Value): int {
    match v
    case U32(n) => n
    case U64(n) => n
    case I32(i) => EncodeZigzag(i, TWO32)
    case I64(i) => EncodeZigzag(i, TWO64)
  }

  // write_var_ul, write_var_l, write_var_ull, write_var_ll
  function WriteValue(v: Value): seq<byte>
    requires Fits(v)
  {
    ZigzagFits(v);
    Encode(Raw(v))
  }

  lemma ZigzagFits(v: Value)
    requires Fits(v)
    ensures 0 <= Raw(v) < if v.U32? || v.I32? then TWO32 else TWO64
  {
    match v
    case I32(i) => ZigzagRoundTrip(i, TWO32);
    case I64(i) => ZigzagRoundTrip(i, TWO64);
    case _ =>
  }

  function Limit(k: Kind): nat {
    if k == KU32 || k == KI32 then 5 else 10
  }

  // What a number read as kind `k` means; bits beyond the width are cut off.
  function Meaning(k: Kind, raw: nat): Value {
    match k
    case KU32 => U32(raw % TWO32)
    case KI32 => I32(DecodeZigzag(raw % TWO32, TWO32))
    case KU64 => U64(raw % TWO64)
    case KI64 => I64(DecodeZigzag(raw % TWO64, TWO64))
  }

  lemma MeaningOfRaw(v: Value)
    requires Fits(v)
    ensures 0 <= Raw(v) && Meaning(KindOf(v), Raw(v)) == v
  {
    ZigzagFits(v);
    match v
    case I32(i) =>
      ZigzagRoundTrip(i, TWO32);
      assert Raw(v) % TWO32 == Raw(v);
    case I64(i) =>
      ZigzagRoundTrip(i, TWO64);
      assert Raw(v) % TWO64 == Raw(v);
    case U32(_) =>
    case U64(_) =>
  }

  // What a number means fits, and adding 2^32 or 2^64 to the number changes nothing.
  lemma {:induction false} MeaningWraps(k: Kind, raw: nat)
    ensures Fits(Meaning(k, raw)) && KindOf(Meaning(k, raw)) == k
    ensures Meaning(k, raw + if k == KU32 || k == KI32 then TWO32 else TWO64) == Meaning(k, raw)
  {
    Turn(raw);
    MeaningFits(k, raw);
  }

  lemma {:induction false} MeaningFits(k: Kind, raw: nat)
    ensures Fits(Meaning(k, raw)) && KindOf(Meaning(k, raw)) == k
  {
    match k
    case KU32 =>
    case KU64 =>
    case KI32 => ZigzagOnto(raw % TWO32, TWO32);
    case KI64 => ZigzagOnto(raw % TWO64, TWO64);
  }

  lemma {:induction false} Turn(raw: nat)
    ensures (raw + TWO32) % TWO32 == raw % TWO32 && (raw + TWO64) % TWO64 == raw % TWO64
  {
  }

  lemma ValueRoundTrip(v: Value, rest: seq<byte>)
    requires Fits(v)
    ensures |WriteValue(v)| <= Limit(KindOf(v))
    ensures Decode(WriteValue(v) + rest, Limit(KindOf(v))) == Got(Raw(v), |WriteValue(v)|)
    ensures Meaning(KindOf(v), Raw(v)) == v
  {
    ZigzagFits(v);
    Widths(Raw(v));
    RoundTrip(Raw(v), Limit(KindOf(v)), rest);
    MeaningOfRaw(v);
  }

  function WriteAll(vs: seq<Value>): seq<byte>
    requires forall i | 0 <= i < |vs| :: Fits(vs[i])
  {
    if vs == [] then [] else WriteValue(vs[0]) + WriteAll(vs[1..])
  }

  datatype ReadResult = Failed | Read(values: seq<Value>, left: seq<byte>)

  function ReadAll(kinds: seq<Kind>, s: seq<byte>): ReadResult
    decreases |kinds|
  {
    if kinds == [] then Read([], s)
    else
      match Decode(s, Limit(kinds[0]))
      case Short => Failed
      case Got(raw, n) =>
        if n > |s| then Failed
        else
          match ReadAll(kinds[1..], s[n..])
          case Failed => Failed
          case Read(vs, left) => Read([Meaning(kinds[0], raw)] + vs, left)
  }

  function Kinds(vs: seq<Value>): seq<Kind> {
    seq(|vs|, i requires 0 <= i < |vs| => KindOf(vs[i]))
  }

  // Any values written back to back read back unchanged, with nothing left over.
  lemma {:induction false} StreamRoundTrip(vs: seq<Value>, rest: seq<byte>)
    requires forall i | 0 <= i < |vs| :: Fits(vs[i])
    ensures ReadAll(Kinds(vs), WriteAll(vs) + rest) == Read(vs, rest)
    decreases |vs|
  {
    if vs == [] {
      assert Kinds(vs) == [] && WriteAll(vs) + rest == rest;
    } else {
      StreamRoundTrip(vs[1..], rest);
      StreamHead(vs, rest);
    }
  }

  lemma {:induction false} StreamHead(vs: seq<Value>, rest: seq<byte>)
    requires vs != [] && (forall i | 0 <= i < |vs| :: Fits(vs[i]))
    requires ReadAll(Kinds(vs[1..]), WriteAll(vs[1..]) + rest) == Read(vs[1..], rest)
    ensures ReadAll(Kinds(vs), WriteAll(vs) + rest) == Read(vs, rest)
  {
    var head, tail := WriteValue(vs[0]), WriteAll(vs[1..]) + rest;
    KindsTail(vs);
    WriteHead(vs, rest);
    ValueRoundTrip(vs[0], tail);
    ZigzagFits(vs[0]);
    ReadOne(Kinds(vs), head, tail, Raw(vs[0]), vs[1..], rest);
    assert [vs[0]] + vs[1..] == vs;
  }

  lemma {:induction false} KindsTail(vs: seq<Value>)
    requires vs != []
    ensures Kinds(vs) != [] && Kinds(vs)[0] == KindOf(vs[0]) && Kinds(vs)[1..] == Kinds(vs[1..])
  {
  }

  lemma {:induction false} WriteHead(vs: seq<Value>, rest: seq<byte>)
    requires vs != [] && forall i | 0 <= i < |vs| :: Fits(vs[i])
    ensures WriteAll(vs) + rest == WriteValue(vs[0]) + (WriteAll(vs[1..]) + rest)
  {
  }

  lemma {:induction false} ReadOne(kinds: seq<Kind>, head: seq<byte>, tail: seq<byte>, raw: nat, vs: seq<Value>, rest: seq<byte>)
    requires kinds != [] && Decode(head + tail, Limit(kinds[0])) == Got(raw, |head|)
    requires ReadAll(kinds[1..], tail) == Read(vs, rest)
    ensures ReadAll(kinds, head + tail) == Read([Meaning(kinds[0], raw)] + vs, rest)
  {
    assert (head + tail)[|head|..] == tail;
  }
}
