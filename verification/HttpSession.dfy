/**
 HttpSession::recv_request (sylar/http/http_session.cpp): the window over the receive buffer, and the
 body that follows the header. The header parser is known only by its contract.
 */
module HttpSession {

  import opened Wrappers
  import opened Sequences
  import opened Bytes
  import opened ByteArrays
  import opened Streams

  // A parser for one header of `header` bytes. How much it takes of what it is given is its own
  // affair, except that it never takes more than that, and that it stops exactly at the header's end.
  class HeaderParser {
    const header: nat
    const contentLength: nat
    var eaten: nat
    var appetite: seq<nat>  // what it would take, call by call
    var failsAt: nat        // the call on which it reports an error, counted down

    constructor (header: nat, contentLength: nat, appetite: seq<nat>, failsAt: nat)
      ensures this.header == header && this.contentLength == contentLength && eaten == 0
      ensures this.appetite == appetite && this.failsAt == failsAt
    {
      this.header, this.contentLength, this.appetite, this.failsAt := header, contentLength, appetite, failsAt;
      eaten := 0;
    }

    method Execute(length: nat) returns (finished: bool, parsed: nat, error: bool)
      requires eaten <= header
      modifies this
      ensures parsed == Bite(old(appetite), length, header - old(eaten)) && eaten == old(eaten) + parsed <= header
      ensures finished <==> eaten == header
      ensures error <==> old(failsAt) == 1
      ensures appetite == Rest(old(appetite)) && failsAt == Less(old(failsAt))
    {
      parsed := if appetite == [] then length else appetite[0];
      parsed := if parsed < length then parsed else length;
      parsed := if parsed < header - eaten then parsed else header - eaten;
      eaten := eaten + parsed;
      finished, error := eaten == header, failsAt == 1;
      appetite := Rest(appetite);
      failsAt := Less(failsAt);
    }
  }

  function Rest(s: seq<nat>): seq<nat> {
    if s == [] then [] else s[1..]
  }

  function Less(n: nat): nat {
    if n == 0 then 0 else n - 1
  }

  // How much of `length` bytes a parser takes that is `room` bytes away from the header's end.
  function Bite(appetite: seq<nat>, length: nat, room: nat): (n: nat)
    ensures n <= length && n <= room
  {
    Min(Min(if appetite == [] then length else appetite[0], length), room)
  }

  // Why there is no request.
  datatype Why = Fine | NoRead | ParserError | WindowFull | ShortBody

  // The receive loop in numbers: `avail` bytes are to come, `unparsed` are in a buffer of `size`, and
  // `room` are missing to the header's end.
  datatype Numbers = Numbers(avail: nat, unparsed: nat, room: nat, size: nat, arrivals: seq<nat>, appetite: seq<nat>, failsAt: nat)
  {
    // What the next round reads, parses and leaves.
    function Read(): (n: nat)
      ensures n <= avail && (unparsed <= size ==> unparsed + n <= size)
    {
      Portion(if unparsed <= size then size - unparsed else 0, avail, arrivals)
    }

    function Parsed(): (n: nat)
      ensures n <= unparsed + Read() && n <= room
    {
      Bite(appetite, unparsed + Read(), room)
    }

    function Left(): nat {
      if Read() == 0 then unparsed else unparsed + Read() - Parsed()
    }

    function Why(): Why {
      if Read() == 0 then NoRead else if failsAt == 1 then ParserError else if Left() >= size then WindowFull else Fine
    }

    function Next(): Numbers {
      Numbers(avail - Read(), Left(), room - Parsed(), size, Rest(arrivals), Rest(appetite), Less(failsAt))
    }
  }

  // What the loop comes to: how much it read, how much of that is left unparsed, and what is left of
  // the plan behind a header that is there.
  datatype Received = Received(why: Why, read: nat, left: nat, plan: seq<nat>)

  function Rounds(x: Numbers): Received
    decreases x.avail
  {
    if x.Why() != Fine || x.Parsed() == x.room then Received(x.Why(), x.Read(), x.Left(), x.Next().arrivals)
    else More(x.Read(), Rounds(x.Next()))
  }

  function More(k: nat, r: Received): Received {
    r.(read := k + r.read)
  }

  // What is left in the window was read behind the header.
  lemma {:induction false} ReadBehind(x: Numbers)
    requires x.unparsed <= x.size
    ensures var r := Rounds(x); r.read <= x.avail && (r.why == Fine ==> x.unparsed + r.read == x.room + r.left && r.left < x.size)
    decreases x.avail
  {
    if x.Why() == Fine && x.Parsed() != x.room {
      ReadBehind(x.Next());
    }
  }

  // A plan in which no portion exceeds the buffer.
  function Capped(plan: seq<nat>, size: nat): seq<nat> {
    if plan == [] then [] else [Min(plan[0], size)] + Capped(plan[1..], size)
  }

  // A parser that takes all it is given, and meets no error, gets its header exactly when the
  // header's bytes arrive, in portions of any size.
  lemma {:induction false} EagerHeader(x: Numbers)
    requires x.unparsed == 0 && x.room > 0 && x.size > 0 && x.appetite == [] && x.failsAt == 0
    ensures Rounds(x).why == (if x.room <= x.avail && x.room <= Offered(Capped(x.arrivals, x.size)) then Fine else NoRead)
    decreases x.avail
  {
    if x.arrivals != [] && x.arrivals[0] > 0 && x.avail > 0 {
      var plan, k := Capped(x.arrivals, x.size), x.Read();
      assert plan[1..] == Capped(x.arrivals[1..], x.size) && plan[0] == Min(x.arrivals[0], x.size);
      assert x.Parsed() == Min(k, x.room);
      if k < x.room {
        EagerHeader(x.Next());
      }
    }
  }

  // A header that comes whole in the first read, with `more` bytes behind it.
  lemma {:induction false} OneRead(avail: nat, header: nat, more: nat, size: nat, arrivals: seq<nat>)
    requires 0 < header + more <= avail && more < size && header + more <= size
    requires arrivals != [] && arrivals[0] == header + more
    ensures Rounds(Numbers(avail, 0, header, size, arrivals, [], 0)) == Received(Fine, header + more, more, arrivals[1..])
  {
    var x := Numbers(avail, 0, header, size, arrivals, [], 0);
    assert x.Read() == header + more && x.Parsed() == header;
  }

  // memmove(data, data + from, n)
  method MoveDown(data: array<byte>, from: nat, n: nat)
    requires from + n <= data.Length
    modifies data
    ensures data[..n] == old(data[from..from + n])
  {
    forall i | 0 <= i < n {
      data[i] := data[from + i];
    }
  }

  // The bytes in the window are those between the parser and the socket.
  ghost predicate Window(sock: Socket, start: nat, parser: HeaderParser, data: array<byte>, unparsed: nat)
    reads sock, parser, data
  {
    && unparsed <= data.Length && parser.eaten <= parser.header
    && sock.pos == start + parser.eaten + unparsed && sock.Valid()
    && data[..unparsed] == sock.stream[start + parser.eaten..sock.pos]
  }

  ghost function NumbersOf(sock: Socket, parser: HeaderParser, size: nat, unparsed: nat): Numbers
    requires sock.Valid() && parser.eaten <= parser.header
    reads sock, parser
  {
    Numbers(|sock.stream| - sock.pos, unparsed, parser.header - parser.eaten, size, sock.arrivals, parser.appetite, parser.failsAt)
  }

  lemma Filled(data: seq<byte>, stream: seq<byte>, a: nat, b: nat, c: nat, rest: seq<byte>)
    requires a <= b <= c <= |stream| && data == stream[a..b] + stream[b..c] + rest
    ensures |data| >= c - a && data[..c - a] == stream[a..c]
  {
    Front(stream[a..b], stream[b..c], rest);
    Join(stream, a, b, c);
  }

  // What is left of the window once `n` bytes are parsed.
  lemma Drained(data: seq<byte>, stream: seq<byte>, a: nat, c: nat, n: nat)
    requires a <= c <= |stream| && c - a <= |data| && data[..c - a] == stream[a..c] && n <= c - a
    ensures data[n..c - a] == stream[a + n..c]
  {
    Subslice(data, 0, c - a, n, c - a);
    Subslice(stream, a, c, n, c - a);
  }

  // The read and the parser's turn: `readLen` bytes are in the buffer, and `parsed` of them are done.
  method ReadAndParse(sock: Socket, parser: HeaderParser, data: array<byte>, unparsed: nat, ghost start: nat)
    returns (readLen: nat, finished: bool, parsed: nat, error: bool)
    requires Window(sock, start, parser, data, unparsed)
    modifies sock`pos, sock`arrivals, parser, data
    ensures sock.Valid() && parser.eaten <= parser.header
    ensures var x := old(NumbersOf(sock, parser, data.Length, unparsed));
            && readLen == unparsed + x.Read() && sock.pos == old(sock.pos) + x.Read()
            && (if x.Read() == 0 then parser.eaten == old(parser.eaten)
                else
                  && parsed == x.Parsed() && parser.eaten == old(parser.eaten) + parsed
                  && (finished <==> parser.eaten == parser.header) && (error <==> x.failsAt == 1)
                  && NumbersOf(sock, parser, data.Length, x.Left()) == x.Next()
                  && readLen <= data.Length && data[..readLen] == sock.stream[start + old(parser.eaten)..sock.pos])
  {
    readLen, finished, parsed, error := unparsed, false, 0, false;
    var got := sock.Recv(data.Length - unparsed);
    if got.None? {
      return;
    }
    readLen := unparsed + |got.value|;
    ghost var rest := data[readLen..];
    CopyIn(data, unparsed, got.value);
    Filled(data[..], sock.stream, start + parser.eaten, old(sock.pos), sock.pos, rest);
    finished, parsed, error := parser.Execute(readLen);
  }

  // One round of the receive loop. A full window means that the parser took nothing out of a full buffer.
  method ReceiveSome(sock: Socket, parser: HeaderParser, data: array<byte>, unparsed: nat, ghost start: nat)
    returns (why: Why, finished: bool, left: nat)
    requires Window(sock, start, parser, data, unparsed)
    modifies sock`pos, sock`arrivals, parser, data
    ensures sock.Valid() && why != ShortBody && parser.eaten <= parser.header
    ensures why == Fine ==> Window(sock, start, parser, data, left) && left < data.Length && sock.pos > old(sock.pos)
    ensures why == Fine ==> (finished <==> parser.eaten == parser.header)
    ensures why == NoRead ==> sock.pos == old(sock.pos) && parser.eaten == old(parser.eaten)
    ensures why == WindowFull ==> parser.eaten == old(parser.eaten) && sock.pos == start + parser.eaten + data.Length
    ensures var x := old(NumbersOf(sock, parser, data.Length, unparsed));
            && why == x.Why() && sock.pos == old(sock.pos) + x.Read() && left == x.Left()
            && (why == Fine ==> (finished <==> x.Parsed() == x.room) && NumbersOf(sock, parser, data.Length, left) == x.Next())
  {
    var readLen, parsed, error;
    readLen, finished, parsed, error := ReadAndParse(sock, parser, data, unparsed, start);
    if readLen == unparsed {
      return NoRead, false, unparsed;
    }
    left := readLen - parsed;
    Drained(data[..], sock.stream, start + old(parser.eaten), sock.pos, parsed);
    MoveDown(data, parsed, left);
    why := if error then ParserError else if left >= data.Length then WindowFull else Fine;
  }

  // `r` is what the loop comes to, `done` bytes after its start.
  ghost predicate Ahead(r: Received, done: nat, x: Numbers) {
    r == More(done, Rounds(x))
  }

  lemma {:induction false} AheadMoves(r: Received, done: nat, x: Numbers)
    requires Ahead(r, done, x)
    ensures if x.Why() == Fine && x.Parsed() != x.room then Ahead(r, done + x.Read(), x.Next())
            else r == Received(x.Why(), done + x.Read(), x.Left(), x.Next().arrivals)
  {
  }

  // The receive loop, up to the header's end; `r` is what it comes to in numbers.
  method RecvHeader(sock: Socket, parser: HeaderParser, bufferSize: nat, ghost r: Received) returns (why: Why, window: seq<byte>)
    requires sock.Valid() && parser.eaten == 0 && Ahead(r, 0, NumbersOf(sock, parser, bufferSize, 0))
    modifies sock`pos, sock`arrivals, parser
    ensures sock.Valid() && sock.pos >= old(sock.pos)
    ensures why == r.why && sock.pos == old(sock.pos) + r.read && (why == Fine ==> |window| == r.left && sock.arrivals == r.plan)
    ensures why == Fine ==>
              var from := old(sock.pos) + parser.header;
              parser.eaten == parser.header && sock.pos == from + |window| && window == sock.stream[from..sock.pos]
    ensures why != ShortBody
    ensures why == WindowFull ==> sock.pos == old(sock.pos) + parser.eaten + bufferSize
    ensures why == NoRead ==> parser.eaten < parser.header || sock.pos == old(sock.pos)
  {
    ghost var start := sock.pos;
    var data := new byte[bufferSize];
    var finished, unparsed: nat := false, 0;
    why, window := Fine, [];
    while !finished
      invariant Window(sock, start, parser, data, unparsed) && sock.pos >= start && why == Fine
      invariant finished <==> parser.eaten == parser.header && sock.pos > start
      invariant finished ==> r == Received(Fine, sock.pos - start, unparsed, sock.arrivals)
      invariant !finished ==> Ahead(r, sock.pos - start, NumbersOf(sock, parser, bufferSize, unparsed))
      decreases |sock.stream| - sock.pos, !finished
    {
      AheadMoves(r, sock.pos - start, NumbersOf(sock, parser, bufferSize, unparsed));
      why, finished, unparsed := ReceiveSome(sock, parser, data, unparsed, start);
      if why != Fine {
        return;
      }
    }
    window := data[..unparsed];
  }

  // What of a body is not in the window yet.
  function Missing(length: nat, window: nat): nat {
    if window >= length then 0 else length - window
  }

  lemma BodyArrives(length: nat, window: nat, avail: nat, plan: seq<nat>)
    ensures var missing := Missing(length, window);
            missing <= avail && missing <= Offered(plan) <==> length <= window + Min(avail, Offered(plan))
  {
  }

  // recv_request: the body, or None for a null request. Whatever the reads return and however the
  // parser works through them, the body is what follows the header in the stream. `window` is what
  // was read behind the header; of this, what goes beyond the body is dropped with the buffer.
  method RecvRequest(sock: Socket, parser: HeaderParser, bufferSize: nat)
    returns (body: Option<seq<byte>>, why: Why, window: seq<byte>)
    requires sock.Valid() && parser.eaten == 0
    modifies sock`pos, sock`arrivals, parser
    ensures sock.Valid() && (body.Some? <==> why == Fine)
    ensures var r := Rounds(old(NumbersOf(sock, parser, bufferSize, 0)));
            && (r.why != Fine ==> why == r.why && sock.pos == old(sock.pos) + r.read)
            && (r.why == Fine ==> (why == Fine || why == ShortBody) && |window| == r.left && old(sock.pos) + r.read == old(sock.pos) + parser.header + |window|)
    ensures body.Some? ==>
              var from := old(sock.pos) + parser.header;
              var end := from + parser.contentLength;
              && end <= sock.pos && body.value == sock.stream[from..end]
              && from + |window| <= sock.pos && window == sock.stream[from..from + |window|]
              && sock.pos - end == (if |window| > parser.contentLength then |window| - parser.contentLength else 0)
    ensures why == ShortBody ==> |window| < parser.contentLength
    ensures var x := old(NumbersOf(sock, parser, bufferSize, 0));
            var r := Rounds(x);
            r.why == Fine ==>
              && r.read <= x.avail
              && (why == Fine <==> parser.contentLength <= r.left + Min(x.avail - r.read, Offered(r.plan)))
              && sock.pos == old(sock.pos) + r.read + Delivered(Missing(parser.contentLength, r.left), x.avail - r.read, r.plan)
    ensures why == ShortBody ==> parser.eaten == parser.header && sock.pos < old(sock.pos) + parser.header + parser.contentLength
    ensures why == WindowFull ==> sock.pos == old(sock.pos) + parser.eaten + bufferSize
    ensures why == NoRead ==> parser.eaten < parser.header || sock.pos == old(sock.pos)
  {
    ghost var r := Rounds(NumbersOf(sock, parser, bufferSize, 0));
    why, window := RecvHeader(sock, parser, bufferSize, r);
    if why != Fine {
      return None, why, window;
    }
    if parser.contentLength == 0 {
      return Some([]), Fine, window;
    }
    BodyArrives(parser.contentLength, |window|, |sock.stream| - sock.pos, sock.arrivals);
    body := ReadBody(sock, window, parser.contentLength);
    why := if body.Some? then Fine else ShortBody;
  }

  // The body: what the window holds of it, and the rest from the socket.
  method ReadBody(sock: Socket, window: seq<byte>, length: nat) returns (body: Option<seq<byte>>)
    requires sock.Valid() && |window| <= sock.pos && window == sock.stream[sock.pos - |window|..sock.pos]
    modifies sock`pos, sock`arrivals
    ensures sock.Valid() && sock.pos >= old(sock.pos)
    ensures var from := old(sock.pos) - |window|;
            if body.Some? then
              && sock.pos == (if |window| >= length then old(sock.pos) else from + length)
              && body.value == sock.stream[from..from + length]
            else |window| < length && sock.pos < from + length
    ensures var missing, avail := Missing(length, |window|), |sock.stream| - old(sock.pos);
            && (body.Some? <==> missing <= avail && missing <= Offered(old(sock.arrivals)))
            && sock.pos == old(sock.pos) + Delivered(missing, avail, old(sock.arrivals))
  {
    if |window| >= length {
      return Some(window[..length]);
    }
    var rest := ReadFixLength(sock, length - |window|);
    if rest.None? {
      return None;
    }
    body := Some(window + rest.value);
  }

  // Two requests of four and three bytes, neither with a body, that arrive together: the second is
  // gone after the first was received.
  method SecondRequestIsLost(both: seq<byte>) returns (body: Option<seq<byte>>, lost: nat)
    requires |both| == 7
    ensures body == Some([]) && lost == 3
  {
    var sock := new Socket(both, [7], []);
    var parser := new HeaderParser(4, 0, [], 0);
    OneRead(7, 4, 3, 16, [7]);
    var why, window;
    body, why, window := RecvRequest(sock, parser, 16);
    assert why == Fine;
    lost := sock.pos - 4;
  }
}
