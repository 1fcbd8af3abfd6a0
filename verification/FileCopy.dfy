/** Copying a ByteArray to a file and back (sylar/bytearry.cpp). */
module FileCopy {

  import opened Bytes
  import opened BlockArithmetic
  import opened ByteArrays

  // write_to_file, to a file with room for `room` bytes: the whole contents or an exception, and the
  // read position is put back in both cases.
  method WriteToFile(ba: ByteArray, room: nat) returns (ok: bool, file: seq<byte>)
    requires ba.Valid()
    modifies ba`readPos, ba`readCur
    ensures ba.Valid() && ba.readPos == old(ba.readPos)
    ensures ok <==> ba.writePos <= room
    ensures ok ==> file == ba.Bytes()
    ensures !ok ==> |file| == room && file <= ba.Bytes()
  {
    var oldReadPos := ba.readPos;
    ghost var all := ba.Bytes();
    var sought := ba.SetReadPosition(0);
    file := [];
    var toWrite := ba.writePos;
    while toWrite > 0
      invariant ba.Valid() && ba.Bytes() == all && 0 <= toWrite && ba.readPos + toWrite == ba.writePos && ba.readPos <= room
      invariant file == all[..ba.readPos]
    {
      var space := ba.blockSize - Off(ba.readPos, ba.blockSize);
      var n := if space < toWrite then space else toWrite;
      var part := ba.ReadBlock(n);
      if n > room - |file| {
        file := file + part[..room - |file|];
        sought := ba.SetReadPosition(oldReadPos);
        return false, file;
      }
      file := file + part;
      toWrite := toWrite - n;
    }
    sought := ba.SetReadPosition(oldReadPos);
    ok := true;
  }

  // read_from_file: the contents are those of the file, with the read position at their start.
  method ReadFromFile(ba: ByteArray, file: seq<byte>)
    requires ba.Valid()
    modifies ba, ba.blocks, ba.datas
    ensures ba.Valid() && ba.readPos == 0 && ba.Bytes() == file
  {
    ba.Clear();
    ba.FirstBlock();
    var n := ba.blockSize;
    var at := 0;
    while n == ba.blockSize
      invariant ba.Valid() && ba.blocks != [] && ba.readPos == 0 && at <= |file| && n <= ba.blockSize
      invariant ba.writePos == at && ba.Bytes() == file[..at]
      invariant n < ba.blockSize ==> at == |file|
      invariant n == ba.blockSize ==> Off(at, ba.blockSize) == 0
      invariant forall i | 0 <= i < |ba.blocks| :: fresh(ba.blocks[i]) && fresh(ba.datas[i])
      decreases |file| - at, n
    {
      n := ReadBlock(ba, file[at..]);
      assert file[..at + n] == file[..at] + file[at..][..n];
      at := at + n;
    }
  }

  // One round: a block more, and fread into the block at the write position.
  method ReadBlock(ba: ByteArray, rest: seq<byte>) returns (n: nat)
    requires ba.Valid() && ba.blocks != [] && Off(ba.writePos, ba.blockSize) == 0
    modifies ba, ba.blocks, ba.datas
    ensures ba.Valid() && ba.readPos == old(ba.readPos) && ba.writePos == old(ba.writePos) + n
    ensures n == if ba.blockSize < |rest| then ba.blockSize else |rest|
    ensures ba.Bytes() == old(ba.Bytes()) + rest[..n]
    ensures n == ba.blockSize ==> Off(ba.writePos, ba.blockSize) == 0
    ensures old(ba.blocks) <= ba.blocks && old(ba.datas) <= ba.datas
    ensures forall i | |old(ba.blocks)| <= i < |ba.blocks| :: fresh(ba.blocks[i]) && fresh(ba.datas[i])
  {
    ba.FlatCapacity();
    ba.ExpandCapacity(ba.blockSize);
    ba.BytesPrefix(old(ba.content), ba.writePos);
    n := if ba.blockSize < |rest| then ba.blockSize else |rest|;
    if n > 0 {
      ba.WriteBlock(rest[..n]);
    }
  }
}
