/**
 Whole runs of a ByteArray: every sequence of calls returns what one byte sequence with two indices
 returns, whatever the block size.
 */
module ByteArrayRuns {

  import opened Bytes
  import opened BlockArithmetic
  import opened ByteArrays

  datatype Call =
    | Write(data: seq<byte>)
    | Read(size: nat)
    | SetRead(pos: nat)
    | SetWrite(pos: nat)
    | Clear

  // Refused stands for the exception of set_read_position, and for a set_write_position that would
  // leave the array unsound and is not made.
  datatype Answer = Done | Refused | Data(bytes: seq<byte>)

  // One byte sequence, whose end is the write index, and the room there is for it.
  datatype Model = Model(bytes: seq<byte>, readPos: nat, capacity: nat, blockSize: nat)

  // The positions that set_write_position can reach: those not before the read index, and past the
  // capacity only where the blocks it appends cover them.
  predicate Reaches(m: Model, pos: nat)
    requires m.blockSize > 0
  {
    && m.readPos <= pos
    && (   m.capacity == 0 || pos < m.capacity
        || (pos > m.capacity > |m.bytes| && Off(pos, m.blockSize) >= m.capacity - |m.bytes|))
  }

  // The answers and the next state that the flat sequence allows. A write position set forward
  // uncovers bytes that nobody wrote; all else is determined.
  predicate Allowed(m: Model, call: Call, answer: Answer, m': Model) {
    && m.blockSize > 0 && m'.blockSize == m.blockSize
    && match call
       case Write(data) =>
         answer == Done && m'.bytes == m.bytes + data && m'.readPos == m.readPos
         && if data == [] then m'.capacity == m.capacity else |m'.bytes| < m'.capacity && m.capacity <= m'.capacity
       case Read(size) =>
         m.readPos <= |m.bytes| &&
         var n := if size < |m.bytes| - m.readPos then size else |m.bytes| - m.readPos;
         answer == Data(m.bytes[m.readPos..m.readPos + n]) && m' == m.(readPos := m.readPos + n)
       case SetRead(pos) =>
         if pos <= |m.bytes| then answer == Done && m' == m.(readPos := pos) else answer == Refused && m' == m
       case SetWrite(pos) =>
         if Reaches(m, pos) then
           && answer == Done && m'.readPos == m.readPos && |m'.bytes| == pos
           && (if pos <= |m.bytes| then m'.bytes == m.bytes[..pos] else m.bytes <= m'.bytes)
           && (pos < m.capacity ==> m'.capacity == m.capacity) && (pos > 0 ==> pos < m'.capacity)
         else
           answer == Refused && m' == m
       case Clear => answer == Done && m' == Model([], 0, 0, m.blockSize)
  }

  ghost predicate AllowedRun(ms: seq<Model>, calls: seq<Call>, answers: seq<Answer>) {
    && |answers| == |calls| && |ms| == |calls| + 1
    && forall i | 0 <= i < |calls| :: Allowed(ms[i], calls[i], answers[i], ms[i + 1])
  }

  ghost function View(ba: ByteArray): Model
    requires ba.Valid()
    reads ba, ba.blocks, ba.datas
  {
    Model(ba.Bytes(), ba.readPos, ba.capacity, ba.blockSize)
  }

  method Perform(ba: ByteArray, call: Call) returns (answer: Answer)
    requires ba.Valid()
    modifies ba, ba.blocks, ba.datas
    ensures ba.Valid() && Allowed(old(View(ba)), call, answer, View(ba))
    ensures forall i | 0 <= i < |ba.blocks| :: ba.blocks[i] in old(ba.blocks) || fresh(ba.blocks[i])
    ensures forall i | 0 <= i < |ba.datas| :: ba.datas[i] in old(ba.datas) || fresh(ba.datas[i])
  {
    answer := Done;
    match call {
      case Write(data) =>
        ba.Write(data);
        ghost var n := |old(ba.blocks)|;
        assert ba.blocks[..n] == old(ba.blocks) && ba.datas[..n] == old(ba.datas);
      case Read(size) =>
        var out := ba.Read(size);
        answer := Data(out);
      case SetRead(pos) =>
        var ok := ba.SetReadPosition(pos);
        answer := if ok then Done else Refused;
      case SetWrite(pos) =>
        var ok := Seek(ba, pos);
        answer := if ok then Done else Refused;
        ghost var n := |old(ba.blocks)|;
        assert ba.blocks[..n] == old(ba.blocks) && ba.datas[..n] == old(ba.datas);
      case Clear =>
        ba.Clear();
    }
  }

  // set_write_position, where it leaves a sound array.
  method Seek(ba: ByteArray, pos: nat) returns (ok: bool)
    requires ba.Valid()
    modifies ba, ba.blocks
    ensures ba.Valid() && old(ba.blocks) <= ba.blocks && old(ba.datas) <= ba.datas
    ensures forall i | |old(ba.blocks)| <= i < |ba.blocks| :: fresh(ba.blocks[i]) && fresh(ba.datas[i])
    ensures Allowed(old(View(ba)), SetWrite(pos), if ok then Done else Refused, View(ba))
  {
    ok := ba.readPos <= pos && ba.InReach(pos);
    if ok {
      ba.FlatCapacity();
      ghost var before, kept := ba.content, ba.writePos;
      var crashed := ba.SetWritePosition(pos);
      ba.FlatCapacity();
      KeptBytes(before, ba.content, kept, pos);
    }
  }

  lemma KeptBytes(before: seq<seq<byte>>, after: seq<seq<byte>>, kept: nat, pos: nat)
    requires before <= after && kept <= |Flat(before)| && pos <= |Flat(after)|
    ensures if pos <= kept then Flat(after)[..pos] == Flat(before)[..kept][..pos] else Flat(before)[..kept] <= Flat(after)[..pos]
  {
    FlatPrefix(before, after);
  }

  // Every run, from any sound array on.
  method Run(ba: ByteArray, calls: seq<Call>) returns (answers: seq<Answer>, ghost ms: seq<Model>)
    requires ba.Valid()
    modifies ba, ba.blocks, ba.datas
    ensures ba.Valid() && AllowedRun(ms, calls, answers)
    ensures ms[0] == old(View(ba)) && ms[|calls|] == View(ba)
  {
    answers, ms := [], [View(ba)];
    var i := 0;
    while i < |calls|
      invariant i <= |calls| && ba.Valid() && AllowedRun(ms, calls[..i], answers)
      invariant ms[0] == old(View(ba)) && ms[i] == View(ba)
      invariant forall i | 0 <= i < |ba.blocks| :: ba.blocks[i] in old(ba.blocks) || fresh(ba.blocks[i])
      invariant forall i | 0 <= i < |ba.datas| :: ba.datas[i] in old(ba.datas) || fresh(ba.datas[i])
    {
      var answer := Perform(ba, calls[i]);
      answers, ms := answers + [answer], ms + [View(ba)];
      assert calls[..i + 1] == calls[..i] + [calls[i]];
      i := i + 1;
    }
    assert calls[..i] == calls;
  }

  // ---------------------------------------------------------------- first in, first out

  // The bytes that went in and came out, when a run only writes and reads.
  function Written(calls: seq<Call>): seq<byte> {
    if calls == [] then []
    else Written(calls[..|calls| - 1]) + if calls[|calls| - 1].Write? then calls[|calls| - 1].data else []
  }

  function Returned(answers: seq<Answer>): seq<byte> {
    if answers == [] then []
    else Returned(answers[..|answers| - 1]) + if answers[|answers| - 1].Data? then answers[|answers| - 1].bytes else []
  }

  // Nothing is lost, repeated or reordered between writes and reads.
  lemma {:induction false} FirstInFirstOut(ms: seq<Model>, calls: seq<Call>, answers: seq<Answer>)
    requires AllowedRun(ms, calls, answers) && ms[0].bytes == [] && ms[0].readPos == 0
    requires forall i | 0 <= i < |calls| :: calls[i].Write? || calls[i].Read?
    ensures var m := ms[|calls|];
            && m.readPos <= |m.bytes| && m.bytes == Written(calls)
            && Returned(answers) + m.bytes[m.readPos..] == Written(calls)
    decreases |calls|
  {
    var n := |calls|;
    if n > 0 {
      assert AllowedRun(ms[..n], calls[..n - 1], answers[..n - 1]);
      FirstInFirstOut(ms[..n], calls[..n - 1], answers[..n - 1]);
      QueueStep(ms[n - 1], calls[n - 1], answers[n - 1], ms[n], Returned(answers[..n - 1]));
    }
  }

  lemma QueueStep(m: Model, call: Call, answer: Answer, m': Model, out: seq<byte>)
    requires (call.Write? || call.Read?) && Allowed(m, call, answer, m')
    requires m.readPos <= |m.bytes| && out + m.bytes[m.readPos..] == m.bytes
    ensures m'.readPos <= |m'.bytes| && m'.bytes == m.bytes + if call.Write? then call.data else []
    ensures out + (if answer.Data? then answer.bytes else []) + m'.bytes[m'.readPos..] == m'.bytes
  {
    if call.Read? {
      assert answer.bytes + m.bytes[m'.readPos..] == m.bytes[m.readPos..];
      assert (out + answer.bytes) + m.bytes[m'.readPos..] == out + m.bytes[m.readPos..];
    } else {
      assert m'.bytes[m.readPos..] == m.bytes[m.readPos..] + call.data;
      assert out + (m.bytes[m.readPos..] + call.data) == (out + m.bytes[m.readPos..]) + call.data;
    }
  }
}
