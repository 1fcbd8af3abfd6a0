/** The typed reads and writes of ByteArray (sylar/bytearry.cpp): a read that runs out of data puts the cursor back. */
module TypedIo {

  import opened Bytes
  import opened ByteArrays
  import opened Varint
  import opened Endian

  // OutOfRange stands for the std::out_of_range exception.
  datatype Result<+T> = Ok(value: T) | OutOfRange

  // The bytes between the two positions.
  ghost function Unread(ba: ByteArray): seq<byte>
    requires ba.Valid()
    reads ba, ba.blocks, ba.datas
  {
    ba.Bytes()[ba.readPos..]
  }

  // ---------------------------------------------------------------- raw bytes

  // The common pattern of read_fix_*, read_float, read_double and read_string_with_length.
  method ReadExact(ba: ByteArray, n: nat) returns (r: Result<seq<byte>>)
    requires ba.Valid()
    modifies ba`readPos, ba`readCur
    ensures ba.Valid() && (r.Ok? <==> n <= |old(Unread(ba))|)
    ensures r.Ok? ==> r.value == old(Unread(ba))[..n] && ba.readPos == old(ba.readPos) + n
    ensures r.OutOfRange? ==> ba.readPos == old(ba.readPos) && ba.readCur == old(ba.readCur)
  {
    var out := ba.Read(n);
    if |out| != n {
      var ok := ba.SetReadPosition(ba.readPos - |out|);
      return OutOfRange;
    }
    r := Ok(out);
  }

  // write_fix_b, write_fix_s, write_fix_l, write_fix_ll
  method WriteFix(ba: ByteArray, v: nat, n: nat)
    requires ba.Valid() && (n == 1 || n == 2 || n == 4 || n == 8) && v < Pow256(n)
    modifies ba, ba.blocks, ba.datas
    ensures ba.Valid() && ba.readPos == old(ba.readPos) && ba.Bytes() == old(ba.Bytes()) + BigEndian(v, n)
  {
    NetworkOrder(v, n);
    ba.Write(InMemory(HostToNetwork(v, n), n));
  }

  // read_fix_ub, read_fix_us, read_fix_ul, read_fix_ull
  method ReadFix(ba: ByteArray, n: nat) returns (r: Result<nat>)
    requires ba.Valid() && (n == 1 || n == 2 || n == 4 || n == 8)
    modifies ba`readPos, ba`readCur
    ensures ba.Valid() && (r.Ok? <==> n <= |old(Unread(ba))|)
    ensures r.Ok? ==> r.value < Pow256(n) && BigEndian(r.value, n) == old(Unread(ba))[..n] && ba.readPos == old(ba.readPos) + n
    ensures r.OutOfRange? ==> ba.readPos == old(ba.readPos) && ba.readCur == old(ba.readCur)
  {
    var raw := ReadExact(ba, n);
    if raw.OutOfRange? {
      return OutOfRange;
    }
    FromNetwork(raw.value);
    BigOfFromBig(raw.value);
    r := Ok(HostToNetwork(Loaded(raw.value), n));
  }

  // ---------------------------------------------------------------- varints

  // The loop of write_var_ul and write_var_ull.
  method EncodeLoop(value: nat) returns (bytes: seq<byte>)
    ensures bytes == Encode(value)
  {
    var v := value;
    bytes := [];
    while v >= 128
      invariant bytes + Encode(v) == Encode(value)
    {
      ghost var rest := Encode(v / 128);
      bytes := bytes + [(v % 128 + 128) as byte];
      v := v / 128;
    }
    bytes := bytes + [v as byte];
  }

  method WriteVar(ba: ByteArray, v: Value)
    requires ba.Valid() && Varint.Fits(v)
    modifies ba, ba.blocks, ba.datas
    ensures ba.Valid() && ba.readPos == old(ba.readPos) && ba.Bytes() == old(ba.Bytes()) + WriteValue(v)
  {
    ZigzagFits(v);
    var bytes := EncodeLoop(Raw(v));
    ba.Write(bytes);
  }

  // After `i` bytes the loop has gathered `acc`, and what is left to read counts `p` times.
  ghost predicate Partial(s: seq<byte>, limit: nat, i: nat, acc: nat, p: nat) {
    && i <= limit && i <= |s|
    && match Decode(s[i..], limit - i)
       case Short => Decode(s, limit) == Short
       case Got(v, n) => Decode(s, limit) == Got(acc + p * v, i + n)
  }

  lemma PartialMore(s: seq<byte>, limit: nat, i: nat, acc: nat, p: nat)
    requires Partial(s, limit, i, acc, p) && i < limit && i < |s| && s[i] >= 128
    ensures Partial(s, limit, i + 1, acc + s[i] as nat % 128 * p, p * 128)
  {
    var b := s[i] as nat % 128;
    assert s[i..][1..] == s[i + 1..];
    match Decode(s[i + 1..], limit - i - 1)
    case Short =>
    case Got(v, n) => assert acc + p * (b + 128 * v) == (acc + b * p) + (p * 128) * v;
  }

  lemma PartialLast(s: seq<byte>, limit: nat, i: nat, acc: nat, p: nat)
    requires Partial(s, limit, i, acc, p) && i < limit && i < |s| && s[i] < 128
    ensures Decode(s, limit) == Got(acc + s[i] as nat * p, i + 1)
  {
    assert Decode(s[i..], limit - i) == Got(s[i] as nat, 1);
    assert p * s[i] as nat == s[i] as nat * p;
  }

  lemma DecodeMeans(s: seq<byte>, limit: nat)
    ensures var d := Decode(s, limit);
            && (d.Short? <==> |s| < limit && AllMore(s))
            && (d.Got? ==> Takes(s, limit, d.used) && d.value == Weighted(s[..d.used]))
  {
    ShortExactly(s, limit);
    if Decode(s, limit).Got? {
      GotMeans(s, limit);
    }
  }

  // The read of one byte.
  method ReadByte(ba: ByteArray) returns (one: Result<byte>)
    requires ba.Valid()
    modifies ba`readPos, ba`readCur
    ensures ba.Valid() && (one.Ok? <==> old(ba.readPos) < ba.writePos)
    ensures ba.readPos == old(ba.readPos) + if one.Ok? then 1 else 0
    ensures one.Ok? ==> one.value == ba.Bytes()[old(ba.readPos)]
  {
    var out := ba.Read(1);
    one := if |out| == 1 then Ok(out[0]) else OutOfRange;
  }

  // The loop of read_var_ul and read_var_ull; `p` is 2^(7i).
  method DecodeLoop(ba: ByteArray, limit: nat) returns (r: Result<nat>)
    requires ba.Valid()
    modifies ba`readPos, ba`readCur
    ensures ba.Valid()
    ensures match Decode(old(Unread(ba)), limit)
            case Short => r.OutOfRange? && ba.readPos == old(ba.readPos) && ba.readCur == old(ba.readCur)
            case Got(v, n) => r == Ok(v) && ba.readPos == old(ba.readPos) + n
  {
    ghost var all := Unread(ba);
    var result: nat, p: nat, i := 0, 1, 0;
    assert all[0..] == all;
    while i < limit
      invariant ba.Valid() && ba.readPos == old(ba.readPos) + i && Partial(all, limit, i, result, p)
    {
      var one := ReadByte(ba);
      if one.OutOfRange? {
        var ok := ba.SetReadPosition(ba.readPos - i);
        return OutOfRange;
      }
      if one.value < 128 {
        PartialLast(all, limit, i, result, p);
        return Ok(result + one.value as nat * p);
      }
      PartialMore(all, limit, i, result, p);
      result := result + one.value as nat % 128 * p;
      p := p * 128;
      i := i + 1;
    }
    r := Ok(result);
  }

  // read_var_ul, read_var_l, read_var_ull, read_var_ll: out of range exactly when the data ends with
  // no last byte in it and before the limit.
  method ReadVar(ba: ByteArray, k: Kind) returns (r: Result<Value>)
    requires ba.Valid()
    modifies ba`readPos, ba`readCur
    ensures ba.Valid()
    ensures match Decode(old(Unread(ba)), Limit(k))
            case Short => r.OutOfRange? && ba.readPos == old(ba.readPos) && ba.readCur == old(ba.readCur)
            case Got(v, n) => r == Ok(Meaning(k, v)) && ba.readPos == old(ba.readPos) + n
    ensures var u := old(Unread(ba)); r.OutOfRange? <==> |u| < Limit(k) && AllMore(u)
    ensures r.OutOfRange? ==> ba.readPos == old(ba.readPos) && ba.readCur == old(ba.readCur)
    ensures r.Ok? ==> old(ba.readPos) <= ba.readPos && Takes(old(Unread(ba)), Limit(k), ba.readPos - old(ba.readPos))
    ensures r.Ok? ==> r.value == Meaning(k, Weighted(old(Unread(ba))[..ba.readPos - old(ba.readPos)]))
  {
    DecodeMeans(Unread(ba), Limit(k));
    var raw := DecodeLoop(ba, Limit(k));
    r := if raw.OutOfRange? then OutOfRange else Ok(Meaning(k, raw.value));
  }

  // ---------------------------------------------------------------- strings

  // write_string_with_length: the length goes through a uint32_t.
  method WriteStringWithLength(ba: ByteArray, s: seq<byte>)
    requires ba.Valid()
    modifies ba, ba.blocks, ba.datas
    ensures ba.Valid() && ba.readPos == old(ba.readPos)
    ensures ba.Bytes() == old(ba.Bytes()) + Encode(|s| % TWO32) + s
  {
    var length := EncodeLoop(|s| % TWO32);
    ba.Write(length);
    ba.Write(s);
  }

  // read_string: a four-byte length, then that many bytes; both or nothing.
  method ReadString(ba: ByteArray) returns (r: Result<seq<byte>>)
    requires ba.Valid()
    modifies ba`readPos, ba`readCur
    ensures ba.Valid()
    ensures var u := old(Unread(ba));
            r.Ok? <==> |u| >= 4 && 4 + FromBig(u[..4]) <= |u|
    ensures r.Ok? ==> var u := old(Unread(ba));
                      r.value == u[4..4 + FromBig(u[..4])] && ba.readPos == old(ba.readPos) + 4 + |r.value|
    ensures r.OutOfRange? ==> ba.readPos == old(ba.readPos) && ba.readCur == old(ba.readCur)
  {
    ghost var u := Unread(ba);
    var length := ReadFix(ba, 4);
    if length.OutOfRange? {
      return OutOfRange;
    }
    BigRoundTrip(length.value, 4);
    var out := ba.Read(length.value);
    if |out| != length.value {
      var ok := ba.SetReadPosition(ba.readPos - |out| - 4);
      return OutOfRange;
    }
    r := Ok(out);
  }

  // Reading the length and then that many bytes undoes write_string_with_length for every string
  // that is shorter than 2^32 bytes.
  lemma StringRoundTrip(s: seq<byte>, rest: seq<byte>)
    requires |s| < TWO32
    ensures var w := Encode(|s| % TWO32) + s + rest;
            match Decode(w, Limit(KU32))
            case Short => false
            case Got(v, n) => Meaning(KU32, v) == U32(|s|) && n + |s| <= |w| && w[n..n + |s|] == s
  {
    var e := Encode(|s|);
    Widths(|s|);
    assert |s| % TWO32 == |s|;
    assert e + s + rest == e + (s + rest);
    RoundTrip(|s|, Limit(KU32), s + rest);
    assert (e + s + rest)[|e|..|e| + |s|] == s;
  }

  // A string of 2^32 bytes or more does not survive: its length is cut to 32 bits.
  lemma LongStringCut(s: seq<byte>, rest: seq<byte>)
    requires |s| >= TWO32
    ensures match Decode(Encode(|s| % TWO32) + s + rest, Limit(KU32))
            case Short => false
            case Got(v, n) => Meaning(KU32, v) == U32(|s| % TWO32) && |s| % TWO32 != |s|
  {
    var cut := |s| % TWO32;
    Widths(cut);
    assert Encode(cut) + s + rest == Encode(cut) + (s + rest);
    RoundTrip(cut, Limit(KU32), s + rest);
    MeaningOfRaw(U32(cut));
  }
}
