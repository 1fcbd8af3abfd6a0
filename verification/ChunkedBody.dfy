/**
 SocketStream::read_chunked_body (sylar/stream.cpp): a decoder of chunked bodies (section 7.1 of
 RFC 9112) that resumes wherever a read ended, except in one place.
 */
module ChunkedBody {

  import opened Bytes

  const CR: byte := 13
  const LF: byte := 10

  // ---------------------------------------------------------------- one byte at a time

  // A byte from the socket, and whether it was the first that a read returned.
  datatype Item = Item(b: byte, first: bool)

  datatype Mode =
    | Size(tmp: nat, seen: bool)  // in a size line, or before its first digit
    | Skip(size: nat)             // between CR and LF of a size line
    | Data(left: nat)             // that many bytes of the chunk to come
    | End

  // The digit that a byte stands for, in either case; 16 for none.
  function Digit(b: byte): nat {
    if 48 <= b <= 57 then (b - 48) as nat
    else if 65 <= b <= 70 then (b - 55) as nat
    else if 97 <= b <= 102 then (b - 87) as nat
    else 16
  }

  // The character of a hexadecimal digit, in capitals or not.
  function Letter(digit: nat, capital: bool): char
    requires digit < 16
  {
    (if capital then "0123456789ABCDEF" else "0123456789abcdef")[digit]
  }

  // A byte stands for a digit exactly when it is the digit's character in one of the two cases.
  lemma DigitOfLetter(b: byte, digit: nat)
    requires digit < 16
    ensures Digit(b) == digit <==> b as char == Letter(digit, false) || b as char == Letter(digit, true)
  {
  }

  // (tmp << 4) + digit, in 64 bits
  function Shifted(tmp: nat, digit: nat): nat {
    (tmp * 16 + digit) % TWO64
  }

  // The skipped byte is looked for in the same read only.
  function Enter(m: Mode, first: bool): Mode {
    if m.Skip? && first then Data(m.size) else m
  }

  function Next(m: Mode, x: Item): Mode {
    match Enter(m, x.first)
    case Size(tmp, seen) =>
      if Digit(x.b) < 16 then Size(Shifted(tmp, Digit(x.b)), true)
      else if !seen then Size(tmp, seen)
      else if tmp == 0 then End
      else Skip(tmp)
    case Skip(size) => Data(size)
    case Data(left) => if left <= 1 then Size(0, false) else Data(left - 1)
    case End => End
  }

  function Out(m: Mode, x: Item): seq<byte> {
    if Enter(m, x.first).Data? then [x.b] else []
  }

  // How many bytes of the same read follow.
  function SameRead(s: seq<Item>): nat {
    if s == [] || s[0].first then 0 else 1 + SameRead(s[1..])
  }

  datatype Outcome = Outcome(ended: bool, body: seq<byte>, remained: int)

  // `remained` does not count the LF of the last line, whether it was there or not.
  function Decode(m: Mode, s: seq<Item>): Outcome
    decreases |s|
  {
    if m.End? then Outcome(true, [], SameRead(s) - 1)
    else if s == [] then Outcome(false, [], 0)
    else Before(Out(m, s[0]), Decode(Next(m, s[0]), s[1..]))
  }

  function Before(bytes: seq<byte>, o: Outcome): Outcome {
    o.(body := bytes + o.body)
  }

  // ---------------------------------------------------------------- the method

  // The bytes of a read, and of all reads.
  function Mark(read: seq<byte>): seq<Item> {
    seq(|read|, i requires 0 <= i < |read| => Item(read[i], i == 0))
  }

  function MarkAll(parts: seq<seq<byte>>): seq<Item> {
    if parts == [] then [] else Mark(parts[0]) + MarkAll(parts[1..])
  }

  lemma {:induction false} DecodeData(n: nat, d: seq<Item>, r: seq<Item>)
    requires |d| <= n && n > 0
    ensures Decode(Data(n), d + r) == Before(Plain(d), Decode(if |d| == n then Size(0, false) else Data(n - |d|), r))
    decreases |d|
  {
    if d == [] {
      assert d + r == r;
      assert Before([], Decode(Data(n), r)) == Decode(Data(n), r);
    } else {
      assert (d + r)[1..] == d[1..] + r;
      if |d| > 1 {
        DecodeData(n - 1, d[1..], r);
        assert Plain(d) == [d[0].b] + Plain(d[1..]);
      } else {
        assert d[1..] + r == r && Plain(d) == [d[0].b];
      }
    }
  }

  function Plain(s: seq<Item>): seq<byte> {
    seq(|s|, i requires 0 <= i < |s| => s[i].b)
  }

  ghost predicate Reads(parts: seq<seq<byte>>) {
    forall i | 0 <= i < |parts| :: parts[i] != []
  }

  // What is left of the stream when the loop is at index `parsed` of its buffer.
  ghost function Rest(buffer: seq<byte>, parsed: nat, later: seq<seq<byte>>): seq<Item> {
    (if parsed <= |buffer| then Mark(buffer)[parsed..] else []) + MarkAll(later)
  }

  // The variables of the loop as a mode.
  ghost function ModeOf(chunkSize: nat, tmpSize: nat, seen: bool, beyond: bool): Mode {
    if beyond then Skip(chunkSize) else if chunkSize > 0 then Data(chunkSize) else Size(tmpSize, seen)
  }

  lemma {:induction false} SameReadHere(d: seq<Item>, later: seq<seq<byte>>)
    requires Reads(later) && forall i | 0 <= i < |d| :: !d[i].first
    ensures SameRead(d + MarkAll(later)) == |d|
  {
    if d == [] {
      assert d + MarkAll(later) == MarkAll(later);
      if later != [] {
        assert later[0] != [];
        assert MarkAll(later)[0] == Mark(later[0])[0];
      }
    } else {
      assert (d + MarkAll(later))[1..] == d[1..] + MarkAll(later);
      SameReadHere(d[1..], later);
    }
  }

  // The loop is at index `parsed` of its buffer, in mode `m`, with `body` gathered so far; `o` is
  // what it will come to.
  ghost predicate At(o: Outcome, body: seq<byte>, m: Mode, buffer: seq<byte>, parsed: nat, later: seq<seq<byte>>) {
    o == Before(body, Decode(m, Rest(buffer, parsed, later)))
  }

  lemma AtStart(buffered: seq<byte>, parts: seq<seq<byte>>)
    ensures At(Decode(Size(0, false), Mark(buffered) + MarkAll(parts)), [], Size(0, false), buffered, 0, parts[0..])
  {
    assert parts[0..] == parts && Rest(buffered, 0, parts) == Mark(buffered) + MarkAll(parts);
  }

  // What a round of the loop does, as steps of Decode.
  lemma TakeOne(o: Outcome, body: seq<byte>, m: Mode, buffer: seq<byte>, parsed: nat, later: seq<seq<byte>>)
    requires parsed < |buffer| && m.Size? && At(o, body, m, buffer, parsed, later)
    ensures At(o, body, Next(m, Item(buffer[parsed], parsed == 0)), buffer, parsed + 1, later)
  {
    assert Rest(buffer, parsed, later) == [Item(buffer[parsed], parsed == 0)] + Rest(buffer, parsed + 1, later);
    BeforeNothing(Decode(Next(m, Item(buffer[parsed], parsed == 0)), Rest(buffer, parsed + 1, later)));
  }

  lemma SkipOne(o: Outcome, body: seq<byte>, n: nat, buffer: seq<byte>, parsed: nat, later: seq<seq<byte>>)
    requires 0 < parsed <= |buffer| && n > 0 && At(o, body, Skip(n), buffer, parsed, later)
    ensures At(o, body, ModeOf(n, 0, false, parsed + 1 > |buffer|), buffer, parsed + 1, later)
  {
    if parsed < |buffer| {
      assert Rest(buffer, parsed, later) == [Item(buffer[parsed], false)] + Rest(buffer, parsed + 1, later);
      BeforeNothing(Decode(Data(n), Rest(buffer, parsed + 1, later)));
    } else {
      assert Rest(buffer, parsed, later) == Rest(buffer, parsed + 1, later);
    }
  }

  lemma RestSplit(k: nat, buffer: seq<byte>, parsed: nat, later: seq<seq<byte>>)
    requires parsed + k <= |buffer|
    ensures Rest(buffer, parsed, later) == Mark(buffer)[parsed..parsed + k] + Rest(buffer, parsed + k, later)
    ensures Plain(Mark(buffer)[parsed..parsed + k]) == buffer[parsed..parsed + k]
  {
    assert Mark(buffer)[parsed..] == Mark(buffer)[parsed..parsed + k] + Mark(buffer)[parsed + k..];
  }

  lemma TakeMany(o: Outcome, body: seq<byte>, n: nat, k: nat, buffer: seq<byte>, parsed: nat, later: seq<seq<byte>>)
    requires k <= n && n > 0 && parsed + k <= |buffer| && At(o, body, Data(n), buffer, parsed, later)
    ensures At(o, body + buffer[parsed..parsed + k], ModeOf(n - k, 0, false, false), buffer, parsed + k, later)
  {
    var d := Mark(buffer)[parsed..parsed + k];
    RestSplit(k, buffer, parsed, later);
    DecodeData(n, d, Rest(buffer, parsed + k, later));
    var o' := Decode(ModeOf(n - k, 0, false, false), Rest(buffer, parsed + k, later));
    assert body + (Plain(d) + o'.body) == (body + Plain(d)) + o'.body;
  }

  lemma Refill(o: Outcome, body: seq<byte>, m: Mode, buffer: seq<byte>, parsed: nat, parts: seq<seq<byte>>, next: nat)
    requires parsed >= |buffer| && next < |parts| && Reads(parts) && At(o, body, m, buffer, parsed, parts[next..])
    ensures At(o, body, Enter(m, true), parts[next], 0, parts[next + 1..])
  {
    var rest := Rest(parts[next], 0, parts[next + 1..]);
    assert parts[next..][1..] == parts[next + 1..];
    assert Rest(buffer, parsed, parts[next..]) == rest;
    assert rest[0].first;
  }

  lemma EndHere(o: Outcome, body: seq<byte>, buffer: seq<byte>, parsed: nat, later: seq<seq<byte>>)
    requires 0 < parsed <= |buffer| && Reads(later) && At(o, body, End, buffer, parsed, later)
    ensures o == Outcome(true, body, |buffer| - parsed - 1)
  {
    SameReadHere(Mark(buffer)[parsed..], later);
  }

  lemma NoMore(o: Outcome, body: seq<byte>, m: Mode, buffer: seq<byte>, parsed: nat, parts: seq<seq<byte>>)
    requires parsed >= |buffer| && !m.End? && At(o, body, m, buffer, parsed, parts[|parts|..])
    ensures !o.ended && o.body == body
  {
    assert Rest(buffer, parsed, parts[|parts|..]) == [];
  }

  lemma BeforeNothing(o: Outcome)
    ensures Before([], o) == o
  {
  }

  // A byte of a size line, and the LF behind the line.
  method TakeSize(ghost o: Outcome, ghost body: seq<byte>, buffer: seq<byte>, at: nat, tmp: nat, had: bool, ghost later: seq<seq<byte>>)
    returns (ended: bool, parsed: nat, chunkSize: nat, tmpSize: nat, seen: bool)
    requires at < |buffer| && Reads(later) && At(o, body, Size(tmp, had), buffer, at, later)
    ensures at < parsed <= |buffer| + 1
    ensures ended ==> o == Outcome(true, body, |buffer| - parsed)
    ensures !ended ==> (parsed == |buffer| + 1 ==> chunkSize > 0) && (chunkSize > 0 ==> tmpSize == 0 && !seen)
    ensures !ended ==> At(o, body, ModeOf(chunkSize, tmpSize, seen, parsed > |buffer|), buffer, parsed, later)
  {
    ended, parsed, chunkSize, tmpSize, seen := false, at + 1, 0, tmp, had;
    TakeOne(o, body, Size(tmp, had), buffer, at, later);
    var digit := Digit(buffer[at]);
    if digit < 16 {
      tmpSize, seen := Shifted(tmp, digit), true;
    } else if seen {
      parsed := parsed + 1;
      if tmpSize == 0 {
        EndHere(o, body, buffer, at + 1, later);
        ended := true;
      } else {
        SkipOne(o, body, tmp, buffer, at + 1, later);
        chunkSize, tmpSize, seen := tmpSize, 0, false;
      }
    }
  }

  // A piece of chunk data: as much as is there and wanted.
  method TakeData(ghost o: Outcome, before: seq<byte>, buffer: seq<byte>, at: nat, size: nat, ghost later: seq<seq<byte>>)
    returns (body: seq<byte>, parsed: nat, chunkSize: nat)
    requires at < |buffer| && size > 0 && At(o, before, Data(size), buffer, at, later)
    ensures at < parsed <= |buffer|
    ensures At(o, body, ModeOf(chunkSize, 0, false, false), buffer, parsed, later)
  {
    var k := if size <= |buffer| - at then size else |buffer| - at;
    TakeMany(o, before, size, k, buffer, at, later);
    body := before + buffer[at..at + k];
    parsed, chunkSize := at + k, size - k;
  }

  // `buffered` is what the buffer holds at the call; `parts` are what the reads return, and a read
  // beyond them fails.
  method ReadChunkedBody(buffered: seq<byte>, parts: seq<seq<byte>>) returns (ok: bool, body: seq<byte>, remained: nat)
    requires Reads(parts)
    ensures var o := Decode(Size(0, false), Mark(buffered) + MarkAll(parts));
            && ok == o.ended && body == o.body
            && (ok ==> remained == if o.remained < 0 then TWO64 - 1 else o.remained)
  {
    AtStart(buffered, parts);
    ok, body, remained := Loop(Decode(Size(0, false), Mark(buffered) + MarkAll(parts)), buffered, parts);
  }

  // The loop, from its start.
  method Loop(ghost o: Outcome, buffered: seq<byte>, parts: seq<seq<byte>>) returns (ok: bool, body: seq<byte>, remained: nat)
    requires Reads(parts) && At(o, [], Size(0, false), buffered, 0, parts[0..])
    ensures ok == o.ended && body == o.body
    ensures ok ==> remained == if o.remained < 0 then TWO64 - 1 else o.remained
  {
    var chunkSize: nat, tmpSize: nat, seen := 0, 0, false;
    var buffer, parsed: nat, next: nat := buffered, 0, 0;
    body := [];
    var ended := false;
    while !ended
      invariant next <= |parts| && parsed <= |buffer| + 1
      invariant ended ==> o == Outcome(true, body, |buffer| - parsed)
      invariant !ended ==> (parsed == |buffer| + 1 ==> chunkSize > 0) && (chunkSize > 0 ==> tmpSize == 0 && !seen)
      invariant !ended ==> At(o, body, ModeOf(chunkSize, tmpSize, seen, parsed > |buffer|), buffer, parsed, parts[next..])
      decreases !ended, |parts| - next, |buffer| + 1 - parsed
    {
      if parsed >= |buffer| {
        if next == |parts| {
          NoMore(o, body, ModeOf(chunkSize, tmpSize, seen, parsed > |buffer|), buffer, parsed, parts);
          return false, body, 0;
        }
        Refill(o, body, ModeOf(chunkSize, tmpSize, seen, parsed > |buffer|), buffer, parsed, parts, next);
        buffer, parsed, next := parts[next], 0, next + 1;
      }
      if chunkSize == 0 {
        ended, parsed, chunkSize, tmpSize, seen := TakeSize(o, body, buffer, parsed, tmpSize, seen, parts[next..]);
      } else {
        body, parsed, chunkSize := TakeData(o, body, buffer, parsed, chunkSize, parts[next..]);
      }
    }
    ok, remained := true, if parsed <= |buffer| then |buffer| - parsed else TWO64 - 1;
  }

  // ---------------------------------------------------------------- chunked bodies

  // A chunk as it travels: the digits of its size line, which may have leading zeros, and its data.
  datatype Chunk = Chunk(digits: seq<byte>, data: seq<byte>)

  predicate Hex(digits: seq<byte>) {
    digits != [] && forall i | 0 <= i < |digits| :: Digit(digits[i]) < 16
  }

  // The number that a line of digits stands for.
  function Value(acc: nat, digits: seq<byte>): nat
    decreases |digits|
  {
    if digits == [] then acc else Value(acc * 16 + Digit(digits[0]), digits[1..])
  }

  // A chunk of section 7.1 without extensions. Its data is not empty and fits a size_t.
  predicate Sound(c: Chunk) {
    Hex(c.digits) && Value(0, c.digits) == |c.data| && 0 < |c.data| < TWO64
  }

  function Wire(chunks: seq<Chunk>, last: seq<byte>): seq<byte> {
    if chunks == [] then last + [CR] + [LF]
    else chunks[0].digits + [CR] + [LF] + chunks[0].data + [CR] + [LF] + Wire(chunks[1..], last)
  }

  function Payload(chunks: seq<Chunk>): seq<byte> {
    if chunks == [] then [] else chunks[0].data + Payload(chunks[1..])
  }

  lemma {:induction false} ValueGrows(acc: nat, digits: seq<byte>)
    ensures acc <= Value(acc, digits)
    decreases |digits|
  {
    if digits != [] {
      ValueGrows(acc * 16 + Digit(digits[0]), digits[1..]);
    }
  }

  lemma ShiftedSmall(tmp: nat, digit: nat)
    requires tmp * 16 + digit < TWO64
    ensures Shifted(tmp, digit) == tmp * 16 + digit
  {
  }

  lemma {:induction false} OneDigit(tmp: nat, seen: bool, x: Item, r: seq<Item>)
    requires Digit(x.b) < 16 && tmp * 16 + Digit(x.b) < TWO64
    ensures Decode(Size(tmp, seen), [x] + r) == Decode(Size(tmp * 16 + Digit(x.b), true), r)
  {
    DigitNext(tmp, seen, x);
    assert ([x] + r)[1..] == r;
    BeforeNothing(Decode(Size(tmp * 16 + Digit(x.b), true), r));
  }

  lemma {:induction false} DigitNext(tmp: nat, seen: bool, x: Item)
    requires Digit(x.b) < 16 && tmp * 16 + Digit(x.b) < TWO64
    ensures Next(Size(tmp, seen), x) == Size(tmp * 16 + Digit(x.b), true) && Out(Size(tmp, seen), x) == []
  {
    ShiftedSmall(tmp, Digit(x.b));
  }

  // The digits of a size line, read across any number of reads.
  lemma {:induction false} DecodeDigits(tmp: nat, seen: bool, d: seq<Item>, r: seq<Item>)
    requires Hex(Plain(d)) && Value(tmp, Plain(d)) < TWO64
    ensures Decode(Size(tmp, seen), d + r) == Decode(Size(Value(tmp, Plain(d)), true), r)
    decreases |d|
  {
    var tmp' := tmp * 16 + Digit(d[0].b);
    assert Plain(d)[0] == d[0].b && Plain(d)[1..] == Plain(d[1..]);
    ValueGrows(tmp', Plain(d[1..]));
    assert d + r == [d[0]] + (d[1..] + r);
    OneDigit(tmp, seen, d[0], d[1..] + r);
    if |d| > 1 {
      DecodeDigits(tmp', true, d[1..], r);
    } else {
      assert d[1..] + r == r && Plain(d[1..]) == [];
    }
  }

  // The end of a size line.
  lemma DecodeLine(n: nat, cr: Item, lf: Item, r: seq<Item>)
    requires n > 0 && cr.b == CR && lf.b == LF
    ensures Decode(Size(n, true), [cr] + [lf] + r) == if lf.first then Decode(Data(n), [lf] + r) else Decode(Data(n), r)
  {
    var s := [cr] + [lf] + r;
    assert s[1..] == [lf] + r && ([lf] + r)[1..] == r;
    BeforeNothing(Decode(Skip(n), [lf] + r));
    if !lf.first {
      BeforeNothing(Decode(Data(n), r));
    }
  }

  // Between chunks everything but a digit is passed over.
  lemma DecodeGap(x: Item, r: seq<Item>)
    requires Digit(x.b) == 16
    ensures Decode(Size(0, false), [x] + r) == Decode(Size(0, false), r)
  {
    assert ([x] + r)[1..] == r;
    BeforeNothing(Decode(Size(0, false), r));
  }

  predicate AllLf(data: seq<byte>) {
    forall i | 0 <= i < |data| :: data[i] == LF
  }

  // A chunk whose size line is whole.
  lemma DecodeChunk(d: seq<Item>, cr: Item, lf: Item, r: seq<Item>)
    requires d != [] && cr.b == CR && lf.b == LF
    ensures Decode(Data(|d|), d + [cr] + [lf] + r) == Before(Plain(d), Decode(Size(0, false), r))
  {
    assert d + [cr] + [lf] + r == d + ([cr] + ([lf] + r));
    DecodeData(|d|, d, [cr] + ([lf] + r));
    DecodeGap(cr, [lf] + r);
    DecodeGap(lf, r);
  }

  // A chunk whose size line was cut before its LF: the LF takes the place of the first byte, and
  // the last byte is left in the stream.
  lemma DecodeCutChunk(lf0: Item, d: seq<Item>, r: seq<Item>)
    requires d != [] && lf0.b == LF
    ensures Decode(Data(|d|), [lf0] + d + r)
         == Before([LF] + Plain(d)[..|d| - 1], Decode(Size(0, false), [d[|d| - 1]] + r))
  {
    var n := |d| - 1;
    var e := [lf0] + d[..n];
    assert [lf0] + d + r == e + ([d[n]] + r);
    assert Plain(e) == [LF] + Plain(d)[..n];
    DecodeData(|d|, e, [d[n]] + r);
  }

  lemma {:induction false} ShiftedSame(data: seq<byte>)
    requires data != []
    ensures [LF] + data[..|data| - 1] == data <==> AllLf(data)
  {
    var shifted := [LF] + data[..|data| - 1];
    if shifted == data {
      RepeatsFirst(data, |data| - 1);
    }
  }

  lemma {:induction false} RepeatsFirst(data: seq<byte>, k: nat)
    requires k < |data| && [LF] + data[..|data| - 1] == data
    ensures forall i | 0 <= i <= k :: data[i] == LF
  {
    if k > 0 {
      RepeatsFirst(data, k - 1);
      assert data[k] == ([LF] + data[..|data| - 1])[k] == data[k - 1];
    }
  }

  // ---------------------------------------------------------------- what fragmentation does

  // The decoder met its promise on the rest of the stream: the payload, and the number of buffered
  // bytes behind the last size line.
  ghost predicate Right(o: Outcome, payload: seq<byte>, behind: seq<Item>) {
    o.ended && o.body == payload && o.remained == SameRead(behind)
  }

  lemma RightBefore(data: seq<byte>, o: Outcome, payload: seq<byte>, behind: seq<Item>)
    ensures Right(Before(data, o), data + payload, behind) <==> Right(o, payload, behind)
  {
    if Right(Before(data, o), data + payload, behind) {
      assert o.body == (data + o.body)[|data|..] == (data + payload)[|data|..] == payload;
    }
  }

  lemma WrongBefore(head: seq<byte>, data: seq<byte>, o: Outcome, payload: seq<byte>, behind: seq<Item>)
    requires |head| == |data| && head != data
    ensures !Right(Before(head, o), data + payload, behind)
  {
    assert (head + o.body)[..|head|] == head && (data + payload)[..|data|] == data;
  }

  // The last line.
  lemma LastLine(d: seq<Item>, cr: Item, lf: Item, behind: seq<Item>)
    requires Hex(Plain(d)) && Value(0, Plain(d)) == 0 && cr.b == CR
    ensures Right(Decode(Size(0, false), d + [cr] + [lf] + behind), [], behind) <==> !lf.first
  {
    var r := [lf] + behind;
    assert d + [cr] + [lf] + behind == d + ([cr] + r);
    DecodeDigits(0, false, d, [cr] + r);
    assert ([cr] + r)[1..] == r && r[1..] == behind;
    BeforeNothing(Decode(End, r));
  }

  // One chunk in front of the rest.
  lemma OneChunk(g: seq<Item>, cr: Item, lf: Item, d: seq<Item>, cr': Item, lf': Item, r: seq<Item>, payload: seq<byte>, behind: seq<Item>)
    requires Hex(Plain(g)) && Value(0, Plain(g)) == |d| && 0 < |d| < TWO64
    requires cr.b == cr'.b == CR && lf.b == lf'.b == LF
    ensures var o := Decode(Size(0, false), g + [cr] + [lf] + d + [cr'] + [lf'] + r);
            Right(o, Plain(d) + payload, behind) <==>
              (lf.first ==> AllLf(Plain(d))) && Right(Decode(Size(0, false), r), payload, behind)
  {
    var tail := d + [cr'] + [lf'] + r;
    assert g + [cr] + [lf] + d + [cr'] + [lf'] + r == g + ([cr] + [lf] + tail);
    DecodeDigits(0, false, g, [cr] + [lf] + tail);
    DecodeLine(|d|, cr, lf, tail);
    if lf.first {
      CutChunk(lf, d, cr', lf', r, payload, behind);
    } else {
      DecodeChunk(d, cr', lf', r);
      RightBefore(Plain(d), Decode(Size(0, false), r), payload, behind);
    }
  }

  lemma CutChunk(lf: Item, d: seq<Item>, cr': Item, lf': Item, r: seq<Item>, payload: seq<byte>, behind: seq<Item>)
    requires d != [] && cr'.b == CR && lf.b == lf'.b == LF
    ensures var o := Decode(Data(|d|), [lf] + (d + [cr'] + [lf'] + r));
            Right(o, Plain(d) + payload, behind) <==> AllLf(Plain(d)) && Right(Decode(Size(0, false), r), payload, behind)
  {
    var n := |d| - 1;
    var r' := [cr'] + ([lf'] + r);
    assert [lf] + (d + [cr'] + [lf'] + r) == [lf] + d + r';
    DecodeCutChunk(lf, d, r');
    var head, o := [LF] + Plain(d)[..n], Decode(Size(0, false), [d[n]] + r');
    ShiftedSame(Plain(d));
    if AllLf(Plain(d)) {
      assert Plain(d)[n] == d[n].b;
      DecodeGap(d[n], r');
      DecodeGap(cr', [lf'] + r);
      DecodeGap(lf', r);
      RightBefore(head, o, payload, behind);
    } else {
      WrongBefore(head, Plain(d), o, payload, behind);
    }
  }

  // No read ended between the CR and the LF of a size line; or it did no harm, because the chunk
  // consists of LF bytes. The last line must be whole.
  ghost predicate Harmless(chunks: seq<Chunk>, last: seq<byte>, s: seq<Item>)
    requires |s| >= |Wire(chunks, last)|
    decreases |chunks|
  {
    if chunks == [] then !s[|last| + 1].first
    else
      var n := |chunks[0].digits|;
      && (s[n + 1].first ==> AllLf(chunks[0].data))
      && Harmless(chunks[1..], last, s[n + |chunks[0].data| + 4..])
  }

  lemma PlainSlice(s: seq<Item>, i: nat, j: nat)
    requires i <= j <= |s|
    ensures Plain(s[i..j]) == Plain(s)[i..j]
  {
  }

  // The decoder on any chunked body, behind which anything may follow, under any fragmentation.
  lemma {:induction false} Fragmented(chunks: seq<Chunk>, last: seq<byte>, s: seq<Item>, rest: seq<byte>)
    requires forall i | 0 <= i < |chunks| :: Sound(chunks[i])
    requires Hex(last) && Value(0, last) == 0 && Plain(s) == Wire(chunks, last) + rest
    ensures |s| >= |Wire(chunks, last)|
    ensures Right(Decode(Size(0, false), s), Payload(chunks), s[|Wire(chunks, last)|..]) <==> Harmless(chunks, last, s)
    decreases |chunks|
  {
    if chunks == [] {
      LastOnly(last, s, rest);
    } else {
      var at, n := |chunks[0].digits| + |chunks[0].data| + 4, |Wire(chunks[1..], last)|;
      AfterFirst(chunks, last, s, rest, at);
      Fragmented(chunks[1..], last, s[at..], rest);
      ChunkStep(chunks, last, s, rest, at, n);
      HarmlessStep(chunks, last, s);
    }
  }

  lemma {:induction false} AfterFirst(chunks: seq<Chunk>, last: seq<byte>, s: seq<Item>, rest: seq<byte>, at: nat)
    requires chunks != [] && Plain(s) == Wire(chunks, last) + rest && at == |chunks[0].digits| + |chunks[0].data| + 4
    ensures at <= |s| && Plain(s[at..]) == Wire(chunks[1..], last) + rest
  {
    FirstChunk(chunks, last, s, rest);
  }

  // The chunks behind the first, in terms of the whole stream.
  lemma {:induction false} ChunkStep(chunks: seq<Chunk>, last: seq<byte>, s: seq<Item>, rest: seq<byte>, at: nat, n: nat)
    requires chunks != [] && Sound(chunks[0]) && Plain(s) == Wire(chunks, last) + rest
    requires at == |chunks[0].digits| + |chunks[0].data| + 4 && at + n <= |s|
    ensures Right(Decode(Size(0, false), s), Payload(chunks), s[at + n..]) <==>
              && (s[|chunks[0].digits| + 1].first ==> AllLf(chunks[0].data))
              && Right(Decode(Size(0, false), s[at..]), Payload(chunks[1..]), s[at..][n..])
  {
    Behind(s, at, n);
    ChunkFirst(chunks, last, s, rest, s[at + n..]);
  }

  lemma Behind(s: seq<Item>, at: nat, n: nat)
    requires at + n <= |s|
    ensures s[at..][n..] == s[at + n..]
  {
  }

  lemma {:induction false} HarmlessStep(chunks: seq<Chunk>, last: seq<byte>, s: seq<Item>)
    requires chunks != [] && |s| >= |Wire(chunks, last)|
    ensures |Wire(chunks, last)| == |chunks[0].digits| + |chunks[0].data| + 4 + |Wire(chunks[1..], last)|
    ensures var n, at := |chunks[0].digits|, |chunks[0].digits| + |chunks[0].data| + 4;
            Harmless(chunks, last, s) <==> (s[n + 1].first ==> AllLf(chunks[0].data)) && Harmless(chunks[1..], last, s[at..])
  {
    WireLength(chunks, last);
  }

  lemma {:induction false} WireLength(chunks: seq<Chunk>, last: seq<byte>)
    requires chunks != []
    ensures |Wire(chunks, last)| == |chunks[0].digits| + |chunks[0].data| + 4 + |Wire(chunks[1..], last)|
  {
  }

  lemma {:induction false} LastOnly(last: seq<byte>, s: seq<Item>, rest: seq<byte>)
    requires Hex(last) && Value(0, last) == 0 && Plain(s) == Wire([], last) + rest
    ensures |s| >= |Wire([], last)| == |last| + 2
    ensures Right(Decode(Size(0, false), s), Payload([]), s[|Wire([], last)|..]) <==> Harmless([], last, s)
  {
    var n := |last|;
    assert Wire([], last) == last + [CR] + [LF];
    LastLayout(s, last, rest);
    LastPieces(s, n);
    LastLine(s[..n], s[n], s[n + 1], s[n + 2..]);
  }

  lemma LastLayout(s: seq<Item>, last: seq<byte>, rest: seq<byte>)
    requires Plain(s) == last + [CR] + [LF] + rest
    ensures |s| >= |last| + 2 && Plain(s[..|last|]) == last && s[|last|].b == CR
  {
    var p, n := Plain(s), |last|;
    assert |s| == |p| && p == last + ([CR] + [LF] + rest);
    PlainSlice(s, 0, n);
    assert p[..n] == last && p[n] == CR;
  }

  lemma LastPieces(s: seq<Item>, n: nat)
    requires n + 2 <= |s|
    ensures s == s[..n] + [s[n]] + [s[n + 1]] + s[n + 2..]
  {
    assert s[..n + 2] == s[..n] + [s[n]] + [s[n + 1]];
    assert s == s[..n + 2] + s[n + 2..];
  }

  lemma ChunkFirst(chunks: seq<Chunk>, last: seq<byte>, s: seq<Item>, rest: seq<byte>, behind: seq<Item>)
    requires chunks != [] && Sound(chunks[0]) && Plain(s) == Wire(chunks, last) + rest
    ensures var c := chunks[0];
            var n, k := |c.digits|, |c.data|;
            && |s| >= n + k + 4
            && (Right(Decode(Size(0, false), s), Payload(chunks), behind) <==>
                  && (s[n + 1].first ==> AllLf(c.data))
                  && Right(Decode(Size(0, false), s[n + k + 4..]), Payload(chunks[1..]), behind))
  {
    var n, k := |chunks[0].digits|, |chunks[0].data|;
    FirstChunk(chunks, last, s, rest);
    var d, r := s[n + 2..n + k + 2], s[n + k + 4..];
    Pieces(s, n, k);
    OneChunk(s[..n], s[n], s[n + 1], d, s[n + k + 2], s[n + k + 3], r, Payload(chunks[1..]), behind);
  }

  // Where the pieces of the first chunk are.
  lemma FirstChunk(chunks: seq<Chunk>, last: seq<byte>, s: seq<Item>, rest: seq<byte>)
    requires chunks != [] && Plain(s) == Wire(chunks, last) + rest
    ensures var c := chunks[0];
            var n, k := |c.digits|, |c.data|;
            && |s| >= n + k + 4
            && Plain(s[..n]) == c.digits && Plain(s[n + 2..n + k + 2]) == c.data
            && s[n].b == s[n + k + 2].b == CR && s[n + 1].b == s[n + k + 3].b == LF
            && Plain(s[n + k + 4..]) == Wire(chunks[1..], last) + rest
  {
    var c := chunks[0];
    var w := Wire(chunks[1..], last);
    WireHead(chunks, last, rest);
    LayoutItems(s, c.digits, c.data, w + rest);
  }

  lemma {:induction false} WireHead(chunks: seq<Chunk>, last: seq<byte>, rest: seq<byte>)
    requires chunks != []
    ensures var c := chunks[0];
            Wire(chunks, last) + rest == c.digits + [CR] + [LF] + c.data + [CR] + [LF] + (Wire(chunks[1..], last) + rest)
  {
    var c := chunks[0];
    Assoc(c.digits + [CR] + [LF] + c.data + [CR] + [LF], Wire(chunks[1..], last), rest);
  }

  lemma Assoc(a: seq<byte>, b: seq<byte>, c: seq<byte>)
    ensures a + b + c == a + (b + c)
  {
  }

  lemma LayoutItems(s: seq<Item>, g: seq<byte>, d: seq<byte>, w: seq<byte>)
    requires Plain(s) == g + [CR] + [LF] + d + [CR] + [LF] + w
    ensures var n, k := |g|, |d|;
            && |s| >= n + k + 4
            && Plain(s[..n]) == g && Plain(s[n + 2..n + k + 2]) == d
            && s[n].b == s[n + k + 2].b == CR && s[n + 1].b == s[n + k + 3].b == LF
            && Plain(s[n + k + 4..]) == w
  {
    var n, k := |g|, |d|;
    Layout(Plain(s), g, d, w);
    assert |s| == |Plain(s)|;
    PlainSlice(s, 0, n);
    PlainSlice(s, n + 2, n + k + 2);
    PlainSlice(s, n + k + 4, |s|);
  }

  lemma Layout(p: seq<byte>, g: seq<byte>, d: seq<byte>, w: seq<byte>)
    requires p == g + [CR] + [LF] + d + [CR] + [LF] + w
    ensures var n, k := |g|, |d|;
            && |p| >= n + k + 4
            && p[..n] == g && p[n + 2..n + k + 2] == d && p[n + k + 4..] == w
            && p[n] == CR && p[n + 1] == LF && p[n + k + 2] == CR && p[n + k + 3] == LF
  {
    var head := g + [CR] + [LF];
    assert p == head + (d + [CR] + [LF] + w);
    assert head[..|g|] == g;
    assert p[|head|..] == d + [CR] + [LF] + w;
  }

  lemma Pieces(s: seq<Item>, n: nat, k: nat)
    requires n + k + 4 <= |s|
    ensures s == s[..n] + [s[n]] + [s[n + 1]] + s[n + 2..n + k + 2] + [s[n + k + 2]] + [s[n + k + 3]] + s[n + k + 4..]
  {
    var m := n + k + 2;
    assert s[..n + 2] == s[..n] + [s[n]] + [s[n + 1]];
    assert s[..m] == s[..n + 2] + s[n + 2..m];
    assert s[..m + 2] == s[..m] + [s[m]] + [s[m + 1]];
    assert s == s[..m + 2] + s[m + 2..];
  }

  // No read ended inside the end of a size line.
  ghost predicate WholeLines(chunks: seq<Chunk>, last: seq<byte>, s: seq<Item>)
    requires |s| >= |Wire(chunks, last)|
    decreases |chunks|
  {
    if chunks == [] then !s[|last| + 1].first
    else
      var n := |chunks[0].digits|;
      !s[n + 1].first && WholeLines(chunks[1..], last, s[n + |chunks[0].data| + 4..])
  }

  lemma {:induction false} WholeIsHarmless(chunks: seq<Chunk>, last: seq<byte>, s: seq<Item>)
    requires |s| >= |Wire(chunks, last)| && WholeLines(chunks, last, s)
    ensures Harmless(chunks, last, s)
    decreases |chunks|
  {
    if chunks != [] {
      WholeIsHarmless(chunks[1..], last, s[|chunks[0].digits| + |chunks[0].data| + 4..]);
    }
  }

  function Joined(parts: seq<seq<byte>>): seq<byte> {
    if parts == [] then [] else parts[0] + Joined(parts[1..])
  }

  lemma {:induction false} PlainMarkAll(parts: seq<seq<byte>>)
    ensures Plain(MarkAll(parts)) == Joined(parts)
  {
    if parts != [] {
      PlainMarkAll(parts[1..]);
      PlainMarked(parts[0], parts[1..]);
    }
  }

  lemma PlainMarked(first: seq<byte>, parts: seq<seq<byte>>)
    ensures Plain(Mark(first) + MarkAll(parts)) == first + Plain(MarkAll(parts))
  {
  }

  // What read_chunked_body makes of a chunked body, in terms of the reads it came in.
  lemma Received(buffered: seq<byte>, parts: seq<seq<byte>>, chunks: seq<Chunk>, last: seq<byte>, rest: seq<byte>)
    requires forall i | 0 <= i < |chunks| :: Sound(chunks[i])
    requires Hex(last) && Value(0, last) == 0 && buffered + Joined(parts) == Wire(chunks, last) + rest
    ensures var s := Mark(buffered) + MarkAll(parts);
            && |s| >= |Wire(chunks, last)|
            && (Right(Decode(Size(0, false), s), Payload(chunks), s[|Wire(chunks, last)|..]) <==> Harmless(chunks, last, s))
            && (WholeLines(chunks, last, s) ==> Right(Decode(Size(0, false), s), Payload(chunks), s[|Wire(chunks, last)|..]))
  {
    var s := Mark(buffered) + MarkAll(parts);
    PlainMarkAll(parts);
    PlainMarked(buffered, parts);
    Fragmented(chunks, last, s, rest);
    if WholeLines(chunks, last, s) {
      WholeIsHarmless(chunks, last, s);
    }
  }

  // ---------------------------------------------------------------- size lines that a sender writes

  // The number as printf's %x or %X writes it.
  function HexLine(n: nat, capital: bool): string {
    if n < 16 then [Letter(n, capital)] else HexLine(n / 16, capital) + [Letter(n % 16, capital)]
  }

  // The bytes spell the characters.
  ghost predicate Spells(bytes: seq<byte>, text: string) {
    |bytes| == |text| && forall i | 0 <= i < |text| :: bytes[i] as char == text[i]
  }

  lemma {:induction false} ValueAppend(acc: nat, digits: seq<byte>, b: byte)
    ensures Value(acc, digits + [b]) == Value(acc, digits) * 16 + Digit(b)
    decreases |digits|
  {
    if digits == [] {
      assert digits + [b] == [b] && [b][1..] == [];
      assert Value(acc * 16 + Digit(b), []) == acc * 16 + Digit(b);
    } else {
      assert (digits + [b])[1..] == digits[1..] + [b];
      ValueAppend(acc * 16 + Digit(digits[0]), digits[1..], b);
    }
  }

  // The last digit of a size line, and what stands before it.
  lemma {:induction false} LineEnds(n: nat, capital: bool, line: seq<byte>)
    requires Spells(line, HexLine(n, capital))
    ensures line != [] && line[|line| - 1] as char == Letter(n % 16, capital)
    ensures if n < 16 then |line| == 1 else Spells(line[..|line| - 1], HexLine(n / 16, capital))
  {
    var text := HexLine(n, capital);
    assert text[|text| - 1] == Letter(n % 16, capital);
  }

  // A size line has the value of the number it was written for.
  lemma {:induction false} LineReads(n: nat, capital: bool, line: seq<byte>)
    requires Spells(line, HexLine(n, capital))
    ensures Hex(line) && Value(0, line) == n
    decreases n
  {
    LineEnds(n, capital, line);
    var front, b := line[..|line| - 1], line[|line| - 1];
    LetterReads(b, n % 16, capital);
    assert line == front + [b];
    if n >= 16 {
      LineReads(n / 16, capital, front);
    }
    OneMore(front, b, n / 16);
  }

  lemma {:induction false} OneMore(front: seq<byte>, b: byte, n: nat)
    requires (if front == [] then n == 0 else Hex(front) && Value(0, front) == n) && Digit(b) < 16
    ensures Hex(front + [b]) && Value(0, front + [b]) == 16 * n + Digit(b)
  {
    ValueAppend(0, front, b);
  }

  lemma {:induction false} LetterReads(b: byte, digit: nat, capital: bool)
    requires digit < 16 && b as char == Letter(digit, capital)
    ensures Digit(b) == digit
  {
    DigitOfLetter(b, digit);
  }

  // The chunks that carry the pieces `datas`, with size lines in either case.
  ghost predicate Carry(chunks: seq<Chunk>, datas: seq<seq<byte>>) {
    && |chunks| == |datas|
    && forall i | 0 <= i < |chunks| ::
         && chunks[i].data == datas[i]
         && (exists capital :: Spells(chunks[i].digits, HexLine(|datas[i]|, capital)))
  }

  lemma {:induction false} CarriedPayload(chunks: seq<Chunk>, datas: seq<seq<byte>>)
    requires Carry(chunks, datas)
    ensures Payload(chunks) == Joined(datas)
  {
    if chunks != [] {
      CarriedPayload(chunks[1..], datas[1..]);
    }
  }

  // A body cut into pieces, each behind its length in hexadecimal digits, and a line "0": the
  // method gives the body back under every fragmentation that does no harm, and under no other.
  lemma {:induction false} SentReceived(datas: seq<seq<byte>>, chunks: seq<Chunk>, last: seq<byte>, buffered: seq<byte>, parts: seq<seq<byte>>, rest: seq<byte>)
    requires (forall i | 0 <= i < |datas| :: 0 < |datas[i]| < TWO64) && Carry(chunks, datas) && Spells(last, "0")
    requires buffered + Joined(parts) == Wire(chunks, last) + rest
    ensures var s := Mark(buffered) + MarkAll(parts);
            && |s| >= |Wire(chunks, last)|
            && (Right(Decode(Size(0, false), s), Joined(datas), s[|Wire(chunks, last)|..]) <==> Harmless(chunks, last, s))
  {
    forall i | 0 <= i < |chunks|
      ensures Sound(chunks[i])
    {
      var capital :| Spells(chunks[i].digits, HexLine(|datas[i]|, capital));
      LineReads(|datas[i]|, capital, chunks[i].digits);
    }
    LineReads(0, false, last);
    CarriedPayload(chunks, datas);
    Received(buffered, parts, chunks, last, rest);
  }

  // So the method returns the body that was sent, and the bytes it has read beyond, exactly then.
  method ReadSent(ghost datas: seq<seq<byte>>, ghost chunks: seq<Chunk>, ghost last: seq<byte>, ghost rest: seq<byte>,
                  buffered: seq<byte>, parts: seq<seq<byte>>)
    returns (ok: bool, body: seq<byte>, remained: nat)
    requires (forall i | 0 <= i < |datas| :: 0 < |datas[i]| < TWO64) && Carry(chunks, datas) && Spells(last, "0")
    requires Reads(parts) && buffered + Joined(parts) == Wire(chunks, last) + rest
    ensures var s := Mark(buffered) + MarkAll(parts);
            && |s| >= |Wire(chunks, last)|
            && var beyond := SameRead(s[|Wire(chunks, last)|..]);
            && (Harmless(chunks, last, s) ==> ok && body == Joined(datas) && remained == beyond)
            && (ok && body == Joined(datas) && remained == beyond < TWO64 - 1 ==> Harmless(chunks, last, s))
  {
    SentReceived(datas, chunks, last, buffered, parts, rest);
    ok, body, remained := ReadChunkedBody(buffered, parts);
  }

  // ---------------------------------------------------------------- size lines beyond 64 bits

  lemma {:induction false} ShiftedWraps(a: nat, digit: nat)
    ensures Shifted(a % TWO64, digit) == (a * 16 + digit) % TWO64
  {
    SameRemainder(a % TWO64 * 16 + digit, a * 16 + digit, 16 * (a / TWO64));
  }

  lemma {:induction false} SameRemainder(x: nat, y: nat, turns: nat)
    requires y == x + turns * 0x1_0000_0000_0000_0000
    ensures x % TWO64 == y % TWO64
  {
    var m, n := x / TWO64, y / TWO64;
    assert x == m * 0x1_0000_0000_0000_0000 + x % TWO64 && y == n * 0x1_0000_0000_0000_0000 + y % TWO64;
    assert n == m + turns;
  }

  // A size line of any length counts modulo 2^64.
  lemma {:induction false} SizeWraps(tmp: nat, seen: bool, d: seq<Item>, r: seq<Item>)
    requires Hex(Plain(d))
    ensures Decode(Size(tmp % TWO64, seen), d + r) == Decode(Size(Value(tmp, Plain(d)) % TWO64, true), r)
    decreases |d|
  {
    var x, tmp' := d[0], tmp * 16 + Digit(d[0].b);
    assert Plain(d)[0] == x.b && Plain(d)[1..] == Plain(d[1..]);
    assert d + r == [x] + (d[1..] + r);
    AnyDigit(tmp, seen, x, d[1..] + r);
    if |d| > 1 {
      SizeWraps(tmp', true, d[1..], r);
    } else {
      assert d[1..] + r == r && Plain(d[1..]) == [];
    }
  }

  lemma {:induction false} AnyDigit(tmp: nat, seen: bool, x: Item, r: seq<Item>)
    requires Digit(x.b) < 16
    ensures Decode(Size(tmp % TWO64, seen), [x] + r) == Decode(Size((tmp * 16 + Digit(x.b)) % TWO64, true), r)
  {
    ShiftedWraps(tmp, Digit(x.b));
    assert ([x] + r)[1..] == r;
    BeforeNothing(Decode(Size((tmp * 16 + Digit(x.b)) % TWO64, true), r));
  }

  // So a chunk whose length is a multiple of 2^64 passes for the last one.
  lemma {:induction false} HugeChunkEnds(d: seq<Item>, cr: Item, r: seq<Item>)
    requires Hex(Plain(d)) && Value(0, Plain(d)) % TWO64 == 0 && cr.b == CR
    ensures Decode(Size(0, false), d + ([cr] + r)) == Outcome(true, [], SameRead(r) - 1)
  {
    SizeWraps(0, false, d, [cr] + r);
    assert ([cr] + r)[1..] == r;
    BeforeNothing(Decode(End, r));
  }
}
