/**
 Streams over a socket (sylar/stream.cpp): loops that turn short reads and writes into exact ones,
 and reads and writes that go straight into the blocks of a ByteArray. None stands for an exception.
 */
module Streams {

  import opened Wrappers
  import opened Sequences
  import opened Bytes
  import opened ByteArrays

  // ---------------------------------------------------------------- plans

  function Min(a: nat, b: nat): nat {
    if a < b then a else b
  }

  // What a call that asks for `n` bytes gets of the `avail` that there are; zero if it fails.
  function Portion(n: nat, avail: nat, plan: seq<nat>): (k: nat)
    ensures k <= n && k <= avail
  {
    if plan == [] then 0 else Min(Min(plan[0], n), avail)
  }

  // The plan behind a call that asks for `n` bytes: without anything to ask for or to get, the call
  // fails at once.
  function After(n: nat, avail: nat, plan: seq<nat>): seq<nat> {
    if n == 0 || avail == 0 || plan == [] then plan else plan[1..]
  }

  // The sum of the portions before the first empty one.
  function Offered(plan: seq<nat>): nat {
    if plan == [] || plan[0] == 0 then 0 else plan[0] + Offered(plan[1..])
  }

  // How much of `n` bytes a loop gets that asks again after every short portion.
  function Delivered(n: nat, avail: nat, plan: seq<nat>): (k: nat)
    ensures k <= n && k <= avail
    ensures k == n <==> n <= avail && n <= Offered(plan)
  {
    Min(Min(n, avail), Offered(plan))
  }

  // A loop that wants `n` of `avail` bytes has got `done` of them, and `rest` is left of its plan.
  ghost predicate Progress(n: nat, avail: nat, plan: seq<nat>, done: nat, rest: seq<nat>) {
    done <= n && done <= avail && Delivered(n, avail, plan) == done + Delivered(n - done, avail - done, rest)
  }

  lemma {:induction false} MoreProgress(n: nat, avail: nat, plan: seq<nat>, done: nat, rest: seq<nat>)
    requires Progress(n, avail, plan, done, rest)
    ensures var k := Portion(n - done, avail - done, rest);
            if k == 0 then Delivered(n, avail, plan) == done
            else Progress(n, avail, plan, done + k, After(n - done, avail - done, rest))
  {
  }

  // Asking for no more than there is changes nothing.
  lemma SamePortion(n: nat, avail: nat, plan: seq<nat>)
    ensures var m := Min(n, avail); Portion(m, m, plan) == Portion(n, avail, plan) && After(m, m, plan) == After(n, avail, plan)
  {
  }

  // A connected socket. The peer's bytes arrive in portions of any size, one per call, until the
  // plan ends; the bytes sent are collected.
  class Socket {
    const stream: seq<byte>
    var pos: nat
    var arrivals: seq<nat>
    var sent: seq<byte>
    var accepts: seq<nat>

    ghost predicate Valid()
      reads this
    {
      pos <= |stream|
    }

    constructor (s: seq<byte>, plan: seq<nat>, room: seq<nat>)
      ensures Valid() && stream == s && pos == 0 && arrivals == plan && sent == [] && accepts == room
    {
      stream, pos, arrivals, sent, accepts := s, 0, plan, [], room;
    }

    // recv: some bytes, at most n; None on an error, a closed peer or an empty request.
    method Recv(n: nat) returns (out: Option<seq<byte>>)
      requires Valid()
      modifies this`pos, this`arrivals
      ensures Valid() && pos >= old(pos)
      ensures out.Some? ==> 0 < |out.value| <= n && pos == old(pos) + |out.value| && out.value == stream[old(pos)..pos]
      ensures out.None? ==> pos == old(pos)
      ensures out.None? <==> n == 0 || old(pos) == |stream| || old(arrivals) == [] || old(arrivals)[0] == 0
      ensures out.Some? ==> |out.value| <= old(arrivals)[0] && (|out.value| < old(arrivals)[0] && |out.value| < n ==> pos == |stream|)
      ensures pos == old(pos) + Portion(n, |stream| - old(pos), old(arrivals))
      ensures arrivals == After(n, |stream| - old(pos), old(arrivals))
    {
      if n == 0 || pos == |stream| || arrivals == [] {
        return None;
      }
      var k := arrivals[0];
      arrivals := arrivals[1..];
      if k == 0 {
        return None;
      }
      k := if k < n then k else n;
      k := if k < |stream| - pos then k else |stream| - pos;
      out := Some(stream[pos..pos + k]);
      pos := pos + k;
    }

    // send: takes a prefix of `data`, at least one byte, or None.
    method Send(data: seq<byte>) returns (k: Option<nat>)
      modifies this`sent, this`accepts
      ensures k.Some? ==> 0 < k.value <= |data| && sent == old(sent) + data[..k.value]
      ensures k.None? ==> sent == old(sent)
      ensures k.None? <==> data == [] || old(accepts) == [] || old(accepts)[0] == 0
      ensures k.Some? ==> k.value == Portion(|data|, |data|, old(accepts))
      ensures accepts == After(|data|, |data|, old(accepts))
    {
      if data == [] || accepts == [] {
        return None;
      }
      var n := accepts[0];
      accepts := accepts[1..];
      if n == 0 {
        return None;
      }
      n := if n < |data| then n else |data|;
      sent := sent + data[..n];
      k := Some(n);
    }
  }

  // ---------------------------------------------------------------- exact reads and writes

  // read_fix_length into a buffer: exactly `length` bytes of the stream, however they arrive. It
  // fails only if they do not, and then all that did arrive is gone.
  method ReadFixLength(sock: Socket, length: nat) returns (out: Option<seq<byte>>)
    requires sock.Valid()
    modifies sock`pos, sock`arrivals
    ensures sock.Valid() && old(sock.pos) <= sock.pos
    ensures out.Some? ==> |out.value| == length && sock.pos == old(sock.pos) + length && out.value == sock.stream[old(sock.pos)..sock.pos]
    ensures out.Some? <==> length <= |sock.stream| - old(sock.pos) && length <= Offered(old(sock.arrivals))
    ensures sock.pos == old(sock.pos) + Delivered(length, |sock.stream| - old(sock.pos), old(sock.arrivals))
  {
    var buffer: seq<byte> := [];
    ghost var avail, plan := |sock.stream| - sock.pos, sock.arrivals;
    while |buffer| < length
      invariant sock.Valid() && |buffer| <= length && sock.pos == old(sock.pos) + |buffer|
      invariant buffer == sock.stream[old(sock.pos)..sock.pos]
      invariant Progress(length, avail, plan, |buffer|, sock.arrivals)
      decreases length - |buffer|
    {
      ghost var at := sock.pos;
      MoreProgress(length, avail, plan, |buffer|, sock.arrivals);
      var got := sock.Recv(length - |buffer|);
      if got.None? {
        return None;
      }
      Join(sock.stream, old(sock.pos), at, sock.pos);
      buffer := buffer + got.value;
    }
    out := Some(buffer);
  }

  // write_fix_length from a buffer: all of it or an exception.
  method WriteFixLength(sock: Socket, buffer: seq<byte>) returns (ok: bool)
    modifies sock`sent, sock`accepts
    ensures ok ==> sock.sent == old(sock.sent) + buffer
    ensures ok <==> |buffer| <= Offered(old(sock.accepts))
    ensures sock.sent == old(sock.sent) + buffer[..Delivered(|buffer|, |buffer|, old(sock.accepts))]
  {
    var offset := 0;
    ghost var plan := sock.accepts;
    while offset < |buffer|
      invariant offset <= |buffer| && sock.sent == old(sock.sent) + buffer[..offset]
      invariant Progress(|buffer|, |buffer|, plan, offset, sock.accepts)
    {
      MoreProgress(|buffer|, |buffer|, plan, offset, sock.accepts);
      var k := sock.Send(buffer[offset..]);
      if k.None? {
        return false;
      }
      assert buffer[..offset + k.value] == buffer[..offset] + buffer[offset..][..k.value];
      offset := offset + k.value;
    }
    assert buffer[..offset] == buffer;
    ok := true;
  }

  // ---------------------------------------------------------------- through the blocks of a ByteArray

  // SocketStream::read(ByteArray): what arrives is scattered over the blocks and the write position
  // moves on. The contents are the same as after write() of those bytes.
  method ReadInto(sock: Socket, ba: ByteArray, length: nat) returns (n: Option<nat>)
    requires sock.Valid() && ba.Valid()
    modifies sock`pos, sock`arrivals, ba, ba.blocks, ba.datas
    ensures sock.Valid() && ba.Valid() && ba.readPos == old(ba.readPos) && old(sock.pos) <= sock.pos
    ensures n.Some? ==> 0 < n.value <= length && sock.pos == old(sock.pos) + n.value
    ensures n.None? ==> sock.pos == old(sock.pos)
    ensures sock.pos == old(sock.pos) + Portion(length, |sock.stream| - old(sock.pos), old(sock.arrivals))
    ensures sock.arrivals == After(length, |sock.stream| - old(sock.pos), old(sock.arrivals))
    ensures ba.Bytes() == old(ba.Bytes()) + sock.stream[old(sock.pos)..sock.pos]
    ensures old(ba.blocks) <= ba.blocks && old(ba.datas) <= ba.datas
    ensures forall i | |old(ba.blocks)| <= i < |ba.blocks| :: fresh(ba.blocks[i]) && fresh(ba.datas[i])
  {
    var iovs := ba.GetWriteBuffers(length);
    var got := sock.Recv(Total(iovs));
    if got.None? {
      assert sock.stream[old(sock.pos)..sock.pos] == [];
      return None;
    }
    Place(ba, iovs, got.value);
    n := Some(|got.value|);
  }

  // The bytes that arrived go into the slices, and the write position moves behind them.
  method Place(ba: ByteArray, iovs: seq<IoVec>, src: seq<byte>)
    requires ba.Valid() && ba.Covers(iovs, ba.writePos) && |src| <= Total(iovs) && ba.writePos + Total(iovs) < ba.capacity
    modifies ba, ba.blocks, ba.datas
    ensures ba.Valid() && ba.readPos == old(ba.readPos) && ba.blocks == old(ba.blocks) && ba.datas == old(ba.datas)
    ensures ba.Bytes() == old(ba.Bytes()) + src
  {
    ba.FlatCapacity();
    ba.Scatter(iovs, src, ba.writePos);
    ba.SetWriteInside(ba.writePos + |src|);
  }

  // SocketStream::write(ByteArray): sends a prefix of the unread bytes and moves the read position
  // past it.
  method WriteFrom(sock: Socket, ba: ByteArray, length: nat) returns (n: Option<nat>)
    requires ba.Valid()
    modifies sock`sent, sock`accepts, ba`readPos, ba`readCur
    ensures ba.Valid() && ba.Bytes() == old(ba.Bytes())
    ensures n.Some? ==> 0 < n.value <= length && ba.readPos == old(ba.readPos) + n.value
    ensures n.None? ==> ba.readPos == old(ba.readPos)
    ensures ba.readPos == old(ba.readPos) + Portion(length, ba.writePos - old(ba.readPos), old(sock.accepts))
    ensures sock.accepts == After(length, ba.writePos - old(ba.readPos), old(sock.accepts))
    ensures sock.sent == old(sock.sent) + ba.Bytes()[old(ba.readPos)..ba.readPos]
  {
    n := SendSlices(sock, ba, length);
    if n.Some? {
      var ok := ba.SetReadPosition(ba.readPos + n.value);
    }
  }

  // The slices of the unread bytes go to the kernel, which takes a prefix of what they hold.
  method SendSlices(sock: Socket, ba: ByteArray, length: nat) returns (k: Option<nat>)
    requires ba.Valid()
    modifies sock`sent, sock`accepts
    ensures var n := if k.Some? then k.value else 0;
            && n == Portion(length, ba.writePos - ba.readPos, old(sock.accepts)) && (k.None? <==> n == 0)
            && n <= |ba.Bytes()| - ba.readPos && sock.sent == old(sock.sent) + ba.Bytes()[ba.readPos..ba.readPos + n]
    ensures sock.accepts == After(length, ba.writePos - ba.readPos, old(sock.accepts))
  {
    var bytes := NextUnread(ba, length);
    ghost var all, at := ba.Bytes(), ba.readPos;
    SamePortion(length, ba.writePos - ba.readPos, sock.accepts);
    k := sock.Send(bytes);
    Prefix(all, at, at + |bytes|, if k.Some? then k.value else 0);
  }

  // What the slices hold.
  method NextUnread(ba: ByteArray, length: nat) returns (bytes: seq<byte>)
    requires ba.Valid()
    ensures var n := Min(length, ba.writePos - ba.readPos);
            ba.readPos + n <= |ba.Bytes()| && |bytes| == n && bytes == ba.Bytes()[ba.readPos..ba.readPos + n]
  {
    var iovs := ba.GetReadBuffers(length);
    bytes := Flatten(iovs);
  }

  lemma Prefix(s: seq<byte>, i: nat, j: nat, k: nat)
    requires i <= j <= |s| && k <= j - i
    ensures s[i..j][..k] == s[i..i + k]
  {
    Subslice(s, i, j, 0, k);
  }

  // What the kernel reads out of the slices.
  method Flatten(iovs: seq<IoVec>) returns (bytes: seq<byte>)
    requires InBounds(iovs)
    ensures bytes == Gather(iovs)
  {
    bytes := [];
    var k := 0;
    assert iovs[..0] == [];
    while k < |iovs|
      invariant k <= |iovs| && InBounds(iovs[..k]) && bytes == Gather(iovs[..k])
    {
      assert iovs[..k + 1][..k] == iovs[..k];
      bytes := bytes + iovs[k].base[iovs[k].off..iovs[k].off + iovs[k].len];
      k := k + 1;
    }
    assert iovs[..k] == iovs;
  }

  // One round of read_fix_length into a ByteArray, `done` bytes after `start`.
  method ReadMore(sock: Socket, ba: ByteArray, length: nat, done: nat, ghost start: nat, ghost before: seq<byte>, ghost avail: nat, ghost plan: seq<nat>)
    returns (n: Option<nat>)
    requires sock.Valid() && ba.Valid() && done <= length && sock.pos == start + done && |sock.stream| == start + avail
    requires ba.Bytes() == before + sock.stream[start..sock.pos] && Progress(length, avail, plan, done, sock.arrivals)
    modifies sock`pos, sock`arrivals, ba, ba.blocks, ba.datas
    ensures sock.Valid() && ba.Valid() && ba.readPos == old(ba.readPos) && start <= sock.pos
    ensures ba.Bytes() == before + sock.stream[start..sock.pos]
    ensures if n.None? then sock.pos == start + done && Delivered(length, avail, plan) == done
            else 0 < n.value <= length - done && sock.pos == start + done + n.value && Progress(length, avail, plan, done + n.value, sock.arrivals)
    ensures old(ba.blocks) <= ba.blocks && old(ba.datas) <= ba.datas
    ensures forall i | |old(ba.blocks)| <= i < |ba.blocks| :: fresh(ba.blocks[i]) && fresh(ba.datas[i])
  {
    ghost var at := sock.pos;
    MoreProgress(length, avail, plan, done, sock.arrivals);
    n := ReadInto(sock, ba, length - done);
    Behind(before, sock.stream, start, at, sock.pos);
  }

  lemma Behind(before: seq<byte>, s: seq<byte>, a: nat, b: nat, c: nat)
    requires a <= b <= c <= |s|
    ensures before + s[a..b] + s[b..c] == before + s[a..c]
  {
    Join(s, a, b, c);
    assert before + s[a..b] + s[b..c] == before + (s[a..b] + s[b..c]);
  }

  // read_fix_length into a ByteArray.
  method ReadFixLengthInto(sock: Socket, ba: ByteArray, length: nat) returns (ok: bool)
    requires sock.Valid() && ba.Valid()
    modifies sock`pos, sock`arrivals, ba, ba.blocks, ba.datas
    ensures sock.Valid() && ba.Valid() && old(sock.pos) <= sock.pos <= old(sock.pos) + length
    ensures ok <==> length <= |sock.stream| - old(sock.pos) && length <= Offered(old(sock.arrivals))
    ensures sock.pos == old(sock.pos) + Delivered(length, |sock.stream| - old(sock.pos), old(sock.arrivals))
    ensures ba.readPos == old(ba.readPos) && ba.Bytes() == old(ba.Bytes()) + sock.stream[old(sock.pos)..sock.pos]
  {
    var offset := 0;
    ghost var start, before, avail, plan := sock.pos, ba.Bytes(), |sock.stream| - sock.pos, sock.arrivals;
    assert before + sock.stream[start..start] == before;
    while offset < length
      invariant offset <= length && sock.Valid() && sock.pos == start + offset
      invariant ba.Valid() && ba.readPos == old(ba.readPos)
      invariant ba.Bytes() == before + sock.stream[start..sock.pos] && Progress(length, avail, plan, offset, sock.arrivals)
      invariant old(ba.blocks) <= ba.blocks && old(ba.datas) <= ba.datas
      invariant forall i | |old(ba.blocks)| <= i < |ba.blocks| :: fresh(ba.blocks[i]) && fresh(ba.datas[i])
      decreases length - offset
    {
      var n := ReadMore(sock, ba, length, offset, start, before, avail, plan);
      if n.None? {
        return false;
      }
      offset := offset + n.value;
    }
    ok := true;
  }

  // One round of write_fix_length from a ByteArray, `done` bytes after `start`.
  method WriteMore(sock: Socket, ba: ByteArray, length: nat, done: nat, ghost start: nat, ghost before: seq<byte>, ghost avail: nat, ghost plan: seq<nat>)
    returns (n: Option<nat>)
    requires ba.Valid() && done <= length && ba.readPos == start + done && ba.writePos == start + avail
    requires sock.sent == before + ba.Bytes()[start..ba.readPos] && Progress(length, avail, plan, done, sock.accepts)
    modifies sock`sent, sock`accepts, ba`readPos, ba`readCur
    ensures ba.Valid() && start <= ba.readPos && ba.Bytes() == old(ba.Bytes())
    ensures sock.sent == before + ba.Bytes()[start..ba.readPos]
    ensures if n.None? then ba.readPos == start + done && Delivered(length, avail, plan) == done
            else 0 < n.value <= length - done && ba.readPos == start + done + n.value && Progress(length, avail, plan, done + n.value, sock.accepts)
  {
    ghost var all, at := ba.Bytes(), ba.readPos;
    MoreProgress(length, avail, plan, done, sock.accepts);
    n := WriteFrom(sock, ba, length - done);
    Behind(before, all, start, at, ba.readPos);
  }

  // write_fix_length from a ByteArray: exactly the next `length` unread bytes, or an exception
  // short of them; the read position is behind what was sent.
  method WriteFixLengthFrom(sock: Socket, ba: ByteArray, length: nat) returns (ok: bool)
    requires ba.Valid()
    modifies sock`sent, sock`accepts, ba`readPos, ba`readCur
    ensures ba.Valid() && old(ba.readPos) <= ba.readPos <= old(ba.readPos) + length
    ensures ok <==> length <= ba.writePos - old(ba.readPos) && length <= Offered(old(sock.accepts))
    ensures ba.readPos == old(ba.readPos) + Delivered(length, ba.writePos - old(ba.readPos), old(sock.accepts))
    ensures sock.sent == old(sock.sent) + ba.Bytes()[old(ba.readPos)..ba.readPos]
  {
    var offset := 0;
    ghost var start, before, avail, plan := ba.readPos, sock.sent, ba.writePos - ba.readPos, sock.accepts;
    assert before + ba.Bytes()[start..start] == before;
    while offset < length
      invariant offset <= length && ba.Valid() && ba.readPos == start + offset
      invariant sock.sent == before + ba.Bytes()[start..ba.readPos] && Progress(length, avail, plan, offset, sock.accepts)
      decreases length - offset
    {
      var n := WriteMore(sock, ba, length, offset, start, before, avail, plan);
      if n.None? {
        return false;
      }
      offset := offset + n.value;
    }
    ok := true;
  }
}
