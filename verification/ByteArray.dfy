/**
 ByteArray (sylar/bytearry.h, sylar/bytearry.cpp): a linked list of fixed-size blocks with two
 cached cursors. Its contracts are those of one flat byte sequence with two indices.
 */
module ByteArrays {

  import opened Sequences
  import opened Bytes
  import opened BlockArithmetic

  class MemoryBlock {
    const data: array<byte>
    var next: MemoryBlock?

    constructor (size: nat)
      ensures fresh(data) && data.Length == size && next == null
    {
      data := new byte[size];
      next := null;
    }
  }

  // memcpy into an array
  method CopyIn(dst: array<byte>, at: nat, src: seq<byte>)
    requires at + |src| <= dst.Length
    modifies dst
    ensures dst[..] == old(dst[..at]) + src + old(dst[at + |src|..])
  {
    forall i | 0 <= i < |src| {
      dst[at + i] := src[i];
    }
  }

  // A slice of a block, as handed to readv and writev.
  datatype IoVec = IoVec(base: array<byte>, off: nat, len: nat)

  ghost predicate InBounds(v: seq<IoVec>) {
    forall i | 0 <= i < |v| :: v[i].off + v[i].len <= v[i].base.Length
  }

  // How many bytes the slices hold.
  function Total(v: seq<IoVec>): nat {
    if v == [] then 0 else Total(v[..|v| - 1]) + v[|v| - 1].len
  }

  // What writev sends: the slices one after the other.
  ghost function Gather(v: seq<IoVec>): seq<byte>
    requires InBounds(v)
    reads set i | 0 <= i < |v| :: v[i].base
  {
    if v == [] then [] else
      var n := |v| - 1;
      Gather(v[..n]) + v[n].base[v[n].off..v[n].off + v[n].len]
  }

  // One slice more, when the slices before it hold flat[a..b] and it holds flat[b..c].
  lemma {:induction false} GatherStep(v: seq<IoVec>, flat: seq<byte>, a: nat, b: nat, c: nat)
    requires v != [] && InBounds(v[..|v| - 1]) && a <= b <= c <= |flat| && Gather(v[..|v| - 1]) == flat[a..b]
    requires var x := v[|v| - 1]; x.off + x.len <= x.base.Length && x.base[x.off..x.off + x.len] == flat[b..c]
    ensures InBounds(v) && Gather(v) == flat[a..c]
  {
    var n := |v| - 1;
    assert forall i | 0 <= i < n :: v[i] == v[..n][i];
    Join(flat, a, b, c);
  }

  class ByteArray {
    const blockSize: nat
    var capacity: nat
    var root: MemoryBlock?
    var readPos: nat
    var writePos: nat
    var readCur: MemoryBlock?
    var writeCur: MemoryBlock?

    ghost var blocks: seq<MemoryBlock>  // the chain from root
    ghost var datas: seq<array<byte>>    // their memory
    ghost var content: seq<seq<byte>>    // and what it holds

    ghost predicate BlockIn(i: nat)
      reads this`blocks, this`datas, this`content, blocks, datas
    {
      && i < |blocks| && i < |datas| && i < |content|
      && blocks[i].data == datas[i] && datas[i].Length == blockSize && datas[i][..] == content[i]
      && blocks[i].next == (if i + 1 < |blocks| then blocks[i + 1] else null)
    }

    // The list of blocks is sound and holds `content`.
    ghost predicate Chain()
      reads this`capacity, this`root, this`blocks, this`datas, this`content, blocks, datas
    {
      && blockSize > 0 && |content| == |datas| == |blocks|
      && capacity == Cap(|blocks|, blockSize)
      && root == (if blocks == [] then null else blocks[0])
      && (forall i: nat | i < |blocks| :: BlockIn(i))
      && (forall i, j | 0 <= i < j < |blocks| :: blocks[i] != blocks[j] && datas[i] != datas[j])
    }

    // The block that holds position `pos`, or null past the last one.
    ghost function BlockAt(pos: nat): MemoryBlock?
      reads this`blocks
    {
      if blockSize > 0 && Blk(pos, blockSize) < |blocks| then blocks[Blk(pos, blockSize)] else null
    }

    // The strict `<` is the "+1 byte" of expand_capacity: the write cursor always has a block.
    ghost predicate Valid()
      reads this, blocks, datas
    {
      && Chain()
      && (if blocks == [] then readPos == writePos == 0 else readPos <= writePos < capacity)
      && readCur == BlockAt(readPos) && writeCur == BlockAt(writePos)
    }

    // What has been written and not been taken back.
    ghost function Bytes(): (b: seq<byte>)
      requires Valid()
      reads this, blocks, datas
      ensures |b| == writePos
    {
      FlatCapacity();
      Flat(content)[..writePos]
    }

    lemma FlatCapacity()
      requires Chain()
      ensures Uniform(content, blockSize) && |Flat(content)| == capacity
    {
      forall i: nat | i < |blocks|
        ensures |content[i]| == blockSize
      {
        assert BlockIn(i);
      }
      FlatLength(content, blockSize);
    }

    constructor (size: nat)
      requires size > 0
      ensures Valid() && Bytes() == [] && readPos == 0 && capacity == 0 && blockSize == size
    {
      blockSize, capacity, root, readPos, writePos, readCur, writeCur := size, 0, null, 0, 0, null, null;
      blocks, datas, content := [], [], [];
    }

    // Appends one block behind `last`.
    method AppendBlock(last: MemoryBlock) returns (block: MemoryBlock)
      requires Chain() && blocks != [] && last == blocks[|blocks| - 1]
      modifies this`capacity, this`blocks, this`datas, this`content, last`next
      ensures Chain() && fresh(block) && fresh(block.data)
      ensures blocks == old(blocks) + [block] && datas == old(datas) + [block.data]
      ensures |content| == |old(content)| + 1 && content[..|old(content)|] == old(content) && capacity == old(capacity) + blockSize
    {
      block := new MemoryBlock(blockSize);
      last.next := block;
      capacity := capacity + blockSize;
      ghost var n := |blocks|;
      blocks, datas, content := blocks + [block], datas + [block.data], content + [block.data[..]];
      forall i: nat | i < n + 1
        ensures BlockIn(i)
      {
        if i < n {
          assert old(BlockIn(i));
        }
      }
    }
  
    // The first block, in expand_capacity and read_from_file.
    method FirstBlock()
      requires Valid() && blocks == []
      modifies this
      ensures Valid() && |blocks| == 1 && fresh(blocks[0]) && fresh(datas[0])
      ensures readPos == writePos == 0 && capacity == blockSize
    {
      root := new MemoryBlock(blockSize);
      writeCur := root;
      readCur := root;
      capacity := blockSize;
      blocks, datas, content := [root], [root.data], [root.data[..]];
      assert BlockIn(0);
    }

    method LastBlock() returns (last: MemoryBlock)
      requires Valid() && blocks != []
      ensures last == blocks[|blocks| - 1]
    {
      Inside(writePos, |blocks|, blockSize);
      last := writeCur;
      ghost var k := Blk(writePos, blockSize);
      while last.next != null
        invariant k < |blocks| && last == blocks[k]
        decreases |blocks| - k
      {
        assert BlockIn(k);
        last := last.next;
        k := k + 1;
      }
      assert BlockIn(k);
    }

    // Appends blocks until more than `size` bytes are spare.
    method Grow(size: nat)
      requires Valid() && blocks != []
      modifies this`capacity, this`blocks, this`datas, this`content, blocks
      ensures Valid() && capacity - writePos > size && capacity >= old(capacity)
      ensures capacity == old(capacity) || capacity - blockSize - writePos <= size
      ensures old(blocks) <= blocks && old(datas) <= datas && old(content) <= content
      ensures forall i | |old(blocks)| <= i < |blocks| :: fresh(blocks[i]) && fresh(datas[i])
    {
      var curBlock := LastBlock();
      Inside(writePos, |blocks|, blockSize);
      Inside(readPos, |blocks|, blockSize);
      while capacity - writePos <= size
        invariant Chain() && blocks != [] && curBlock == blocks[|blocks| - 1]
        invariant old(blocks) <= blocks && old(datas) <= datas && old(content) <= content && capacity >= old(capacity)
        invariant forall i | |old(blocks)| <= i < |blocks| :: fresh(blocks[i]) && fresh(datas[i])
        invariant capacity == old(capacity) || capacity - blockSize - writePos <= size
        decreases size + writePos + 1 - capacity
      {
        curBlock := AppendBlock(curBlock);
      }
      assert BlockAt(readPos) == old(BlockAt(readPos)) && BlockAt(writePos) == old(BlockAt(writePos));
    }

    // expand_capacity: room for `size` bytes and one more.
    method ExpandCapacity(size: nat)
      requires Valid()
      modifies this, blocks
      ensures Valid() && capacity - writePos > size && blocks != [] && capacity >= old(capacity)
      ensures old(blocks) != [] ==> capacity == old(capacity) || capacity - blockSize - writePos <= size
      ensures readPos == old(readPos) && writePos == old(writePos)
      ensures old(blocks) <= blocks && old(datas) <= datas && old(content) <= content
      ensures forall i | |old(blocks)| <= i < |blocks| :: fresh(blocks[i]) && fresh(datas[i])
    {
      if root == null {
        FirstBlock();
      }
      Grow(size);
    }

    lemma BytesPrefix(c: seq<seq<byte>>, pos: nat)
      requires c <= content && pos <= |Flat(c)|
      ensures pos <= |Flat(content)| && Flat(content)[..pos] == Flat(c)[..pos]
    {
      FlatPrefix(c, content);
    }

    // One memcpy into the memory of position `pos`.
    method StoreAt(data: array<byte>, at: nat, src: seq<byte>, ghost pos: nat)
      requires Chain() && pos < capacity && Blk(pos, blockSize) < |datas| && data == datas[Blk(pos, blockSize)]
      requires at == Off(pos, blockSize) && at + |src| <= blockSize
      modifies this`content, data
      ensures Chain() && |content| == |old(content)| && pos + |src| <= capacity
      ensures |Flat(content)| == |old(Flat(content))| == capacity
      ensures Flat(content) == Splice(old(Flat(content)), pos, src)
    {
      ghost var i := Blk(pos, blockSize);
      Locate(pos, blockSize);
      FlatCapacity();
      FlatUpdate(content, i, at, src);
      FlatLength(content[..i], blockSize);
      assert BlockIn(i);
      CopyIn(data, at, src);
      content := content[i := Splice(content[i], at, src)];
      forall j: nat | j < |blocks|
        ensures BlockIn(j)
      {
        assert old(BlockIn(j));
      }
    }

    lemma SplicePrefix(flat: seq<byte>, pos: nat, src: seq<byte>)
      requires pos + |src| <= |flat|
      ensures |Splice(flat, pos, src)| == |flat| && Splice(flat, pos, src)[..pos + |src|] == flat[..pos] + src
    {
    }

    // The same, in terms of what lies before the end of `src`.
    method StorePrefix(data: array<byte>, at: nat, src: seq<byte>, ghost pos: nat)
      requires Chain() && pos < capacity && Blk(pos, blockSize) < |datas| && data == datas[Blk(pos, blockSize)]
      requires at == Off(pos, blockSize) && at + |src| <= blockSize
      modifies this`content, data
      ensures Chain() && |content| == |old(content)| && pos + |src| <= capacity
      ensures |Flat(content)| == |old(Flat(content))| == capacity
      ensures Flat(content)[..pos + |src|] == old(Flat(content))[..pos] + src
    {
      FlatCapacity();
      ghost var flat := Flat(content);
      StoreAt(data, at, src, pos);
      SplicePrefix(flat, pos, src);
    }

    // Where a cursor goes when its position moves by `n` bytes inside the block.
    lemma CursorMoves(block: MemoryBlock, pos: nat, n: nat)
      requires Chain() && block == BlockAt(pos) && pos + n < capacity && Off(pos, blockSize) + n <= blockSize
      ensures BlockAt(pos + n) == if Off(pos + n, blockSize) == 0 && n > 0 then block.next else block
      ensures BlockAt(pos + n) != null
    {
      Inside(pos, |blocks|, blockSize);
      Inside(pos + n, |blocks|, blockSize);
      Advance(pos, n, blockSize);
      Locate(pos, blockSize);
      assert BlockIn(Blk(pos, blockSize));
    }

    method Write(data: seq<byte>)
      requires Valid()
      modifies this, blocks, datas
      ensures Valid() && readPos == old(readPos) && writePos == old(writePos) + |data|
      ensures Bytes() == old(Bytes()) + data
      ensures old(blocks) <= blocks && old(datas) <= datas
      ensures forall i | |old(blocks)| <= i < |blocks| :: fresh(blocks[i]) && fresh(datas[i])
      ensures if data == [] then capacity == old(capacity) else capacity >= old(capacity)
    {
      if |data| == 0 {
        return;
      }
      FlatCapacity();
      ExpandCapacity(|data|);
      BytesPrefix(old(content), writePos);
      WriteBlocks(data);
    }

    // One round of the copy loop: `src` goes into the current block, and the cursor moves on.
    method WriteSome(src: seq<byte>)
      requires Chain() && writeCur == BlockAt(writePos) && src != []
      requires writePos + |src| < capacity && Off(writePos, blockSize) + |src| <= blockSize
      modifies this`writePos, this`writeCur, this`content, datas
      ensures Chain() && writeCur == BlockAt(writePos) && |content| == |old(content)|
      ensures writePos == old(writePos) + |src|
      ensures |Flat(content)| == |old(Flat(content))| == capacity && Flat(content)[..writePos] == old(Flat(content))[..old(writePos)] + src
    {
      Inside(writePos, |blocks|, blockSize);
      assert BlockIn(Blk(writePos, blockSize));
      StorePrefix(writeCur.data, Off(writePos, blockSize), src, writePos);
      CursorMoves(writeCur, writePos, |src|);
      writePos := writePos + |src|;
      if Off(writePos, blockSize) == 0 {
        writeCur := writeCur.next;
      }
    }

    // WriteSome on a sound array.
    method WriteBlock(src: seq<byte>)
      requires Valid() && src != [] && writePos + |src| < capacity && Off(writePos, blockSize) + |src| <= blockSize
      modifies this`writePos, this`writeCur, this`content, datas
      ensures Valid() && writePos == old(writePos) + |src| && |content| == |old(content)|
      ensures Bytes() == old(Bytes()) + src
      ensures Off(old(writePos), blockSize) == 0 && |src| == blockSize ==> Off(writePos, blockSize) == 0
    {
      FlatCapacity();
      Advance(writePos, |src|, blockSize);
      WriteSome(src);
    }

    // The copy loop of write.
    method WriteBlocks(data: seq<byte>)
      requires Valid() && writePos + |data| < capacity
      modifies this`writePos, this`writeCur, this`content, datas
      ensures Valid() && writePos == old(writePos) + |data| && |content| == |old(content)|
      ensures Bytes() == old(Bytes()) + data
    {
      var dataIdx := 0;
      FlatCapacity();
      while dataIdx < |data|
        invariant dataIdx <= |data| && writePos == old(writePos) + dataIdx
        invariant Chain() && writeCur == BlockAt(writePos) && |content| == |old(content)|
        invariant |Flat(content)| == capacity && Flat(content)[..writePos] == old(Bytes()) + data[..dataIdx]
      {
        var blockPos := Off(writePos, blockSize);
        var blockSpace := blockSize - blockPos;
        var writeSize := if blockSpace < |data| - dataIdx then blockSpace else |data| - dataIdx;
        WriteSome(data[dataIdx..dataIdx + writeSize]);
        assert data[..dataIdx + writeSize] == data[..dataIdx] + data[dataIdx..dataIdx + writeSize];
        dataIdx := dataIdx + writeSize;
      }
      assert data[..dataIdx] == data;
    }
  
    // `n` bytes of the block at `pos` are `n` bytes of the flat sequence.
    lemma SliceAt(pos: nat, n: nat)
      requires Chain() && pos < capacity && Off(pos, blockSize) + n <= blockSize
      ensures |Flat(content)| == capacity && pos + n <= capacity && BlockAt(pos) != null && BlockAt(pos).data.Length == blockSize
      ensures Blk(pos, blockSize) < |datas| && datas[Blk(pos, blockSize)] == BlockAt(pos).data
      ensures BlockAt(pos).data[Off(pos, blockSize)..Off(pos, blockSize) + n] == Flat(content)[pos..pos + n]
    {
      var i, o := Blk(pos, blockSize), Off(pos, blockSize);
      Inside(pos, |blocks|, blockSize);
      Locate(pos, blockSize);
      assert BlockIn(i);
      FlatCapacity();
      FlatLength(content[..i], blockSize);
      FlatBlock(content, i);
      Subslice(Flat(content), pos - o, pos - o + blockSize, o, o + n);
    }

    // One round of the loop of read.
    method ReadSome(n: nat) returns (out: seq<byte>)
      requires Chain() && readCur == BlockAt(readPos) && n > 0
      requires readPos + n < capacity && Off(readPos, blockSize) + n <= blockSize
      modifies this`readPos, this`readCur
      ensures readCur == BlockAt(readPos) && readPos == old(readPos) + n
      ensures |Flat(content)| == capacity && out == Flat(content)[old(readPos)..readPos]
    {
      SliceAt(readPos, n);
      CursorMoves(readCur, readPos, n);
      var blockPos := Off(readPos, blockSize);
      out := readCur.data[blockPos..blockPos + n];
      readPos := readPos + n;
      if Off(readPos, blockSize) == 0 {
        readCur := readCur.next;
      }
    }

    lemma BytesSlice(a: nat, b: nat)
      requires Valid() && a <= b <= writePos
      ensures |Flat(content)| == capacity && b <= capacity && Bytes()[a..b] == Flat(content)[a..b]
    {
      FlatCapacity();
      Subslice(Flat(content), 0, writePos, a, b);
      assert Flat(content)[0..writePos] == Flat(content)[..writePos];
    }

    // ReadSome on a sound array.
    method ReadBlock(n: nat) returns (out: seq<byte>)
      requires Valid() && 0 < n && readPos + n <= writePos && Off(readPos, blockSize) + n <= blockSize
      modifies this`readPos, this`readCur
      ensures Valid() && readPos == old(readPos) + n && out == Bytes()[old(readPos)..readPos]
    {
      BytesSlice(readPos, readPos + n);
      out := ReadSome(n);
    }

    // read: the next bytes, as many as are asked for and there.
    method Read(size: nat) returns (out: seq<byte>)
      requires Valid()
      modifies this`readPos, this`readCur
      ensures Valid()
      ensures |out| == if size < writePos - old(readPos) then size else writePos - old(readPos)
      ensures readPos == old(readPos) + |out| && out == Bytes()[old(readPos)..readPos]
    {
      var total := if size < writePos - readPos then size else writePos - readPos;
      out := [];
      FlatCapacity();
      while |out| < total
        invariant Valid() && |out| <= total && readPos == old(readPos) + |out|
        invariant out == Flat(content)[old(readPos)..readPos]
        decreases total - |out|
      {
        var blockSpace := blockSize - Off(readPos, blockSize);
        var readSize := if blockSpace < total - |out| then blockSpace else total - |out|;
        var part := ReadSome(readSize);
        Join(Flat(content), old(readPos), old(readPos) + |out|, readPos);
        out := out + part;
      }
      BytesSlice(old(readPos), readPos);
    }

    // The cursor walk of the two seek operations. `crashed` says that it would follow a null pointer.
    method Walk(steps: nat) returns (cur: MemoryBlock?, crashed: bool)
      requires Chain()
      ensures crashed <==> steps > |blocks|
      ensures !crashed ==> cur == if steps < |blocks| then blocks[steps] else null
    {
      cur, crashed := root, false;
      var i := 0;
      while i < steps
        invariant i <= steps && i <= |blocks|
        invariant cur == if i < |blocks| then blocks[i] else null
      {
        if cur == null {
          return cur, true;
        }
        assert BlockIn(i);
        cur := cur.next;
        i := i + 1;
      }
    }

    // set_read_position; false stands for the out_of_range exception.
    method SetReadPosition(pos: nat) returns (ok: bool)
      requires Valid()
      modifies this`readPos, this`readCur
      ensures Valid() && (ok <==> pos <= writePos)
      ensures readPos == if ok then pos else old(readPos)
    {
      if pos > writePos {
        return false;
      }
      readPos := pos;
      if blocks != [] {
        Inside(pos, |blocks|, blockSize);
      }
      var crashed;
      readCur, crashed := Walk(Blk(pos, blockSize));
      ok := true;
    }

    // Where set_write_position leaves a sound array: positions below the capacity, and beyond it
    // only those whose offset in their block is at least the spare capacity.
    predicate InReach(pos: nat)
      requires blockSize > 0
      reads this
    {
      || capacity == 0
      || pos < capacity
      || (pos > capacity && writePos < capacity && Off(pos, blockSize) >= capacity - writePos)
    }

    // The capacity that expand_capacity reaches for a position past the end.
    lemma GrowthReaches(count: nat, count': nat, spare: nat, pos: nat)
      requires blockSize > 0 && count <= count' && 0 < spare <= Cap(count, blockSize) < pos
      requires Cap(count', blockSize) > pos - spare
      requires Cap(count', blockSize) == Cap(count, blockSize) || Cap(count', blockSize) - blockSize <= pos - spare
      ensures pos < Cap(count', blockSize) <==> Off(pos, blockSize) >= spare
    {
      var q, o := Blk(pos, blockSize), Off(pos, blockSize);
      Locate(pos, blockSize);
      assert Cap(q + 1, blockSize) == Cap(q, blockSize) + blockSize;
      if count' <= q {
        Monotone(count', q, blockSize);
      } else {
        Monotone(q + 1, count', blockSize);
      }
    }
  
    // The growth branch of set_write_position.
    method Reserve(pos: nat)
      requires Valid()
      modifies this, blocks
      ensures Valid() && writePos == old(writePos) && readPos == old(readPos)
      ensures (if blocks == [] then pos == 0 else pos < capacity) <==> old(InReach(pos))
      ensures old(blocks) <= blocks && old(datas) <= datas && old(content) <= content
      ensures forall i | |old(blocks)| <= i < |blocks| :: fresh(blocks[i]) && fresh(datas[i])
      ensures pos <= old(capacity) ==> blocks == old(blocks) && capacity == old(capacity)
    {
      ghost var count, spare := |blocks|, capacity - writePos;
      if pos > capacity {
        ExpandCapacity(pos - capacity);
        if count > 0 {
          GrowthReaches(count, |blocks|, spare, pos);
        }
      }
    }

    // set_write_position. It keeps the array sound exactly for the positions in reach that do not
    // lie before the read position; all bytes that were there stay.
    method SetWritePosition(pos: nat) returns (crashed: bool)
      requires Valid()
      modifies this, blocks
      ensures Chain() && (!crashed && Valid() <==> old(readPos) <= pos && old(InReach(pos)))
      ensures old(blocks) <= blocks && old(datas) <= datas && old(content) <= content
      ensures forall i | |old(blocks)| <= i < |blocks| :: fresh(blocks[i]) && fresh(datas[i])
      ensures pos <= old(capacity) ==> blocks == old(blocks) && capacity == old(capacity)
      ensures writePos == pos && readPos == old(readPos) && (crashed <==> Blk(pos, blockSize) > |blocks|)
      ensures !crashed ==> writeCur == BlockAt(pos)
    {
      Reserve(pos);
      writePos := pos;
      writeCur, crashed := Walk(Blk(pos, blockSize));
      if pos < capacity {
        Inside(pos, |blocks|, blockSize);
      }
    }

    // set_write_position as SocketStream::read uses it: only the position moves.
    method SetWriteInside(pos: nat)
      requires Valid() && readPos <= pos < capacity
      modifies this, blocks
      ensures Valid() && writePos == pos && readPos == old(readPos) && capacity == old(capacity)
      ensures blocks == old(blocks) && datas == old(datas) && content == old(content)
    {
      var crashed := SetWritePosition(pos);
    }

    // clear
    method Clear()
      requires Valid()
      modifies this
      ensures Valid() && Bytes() == [] && readPos == 0 && capacity == 0 && blocks == [] && datas == []
    {
      root, readCur, writeCur := null, null, null;
      writePos, readPos, capacity := 0, 0, 0;
      blocks, datas, content := [], [], [];
    }
  
    // Slice `v` is the memory of the positions from `pos` on.
    ghost predicate VecAt(v: IoVec, pos: nat)
      requires blockSize > 0
      reads this`datas
    {
      && Blk(pos, blockSize) < |datas| && v.base == datas[Blk(pos, blockSize)]
      && v.off == Off(pos, blockSize) && 0 < v.len && v.off + v.len <= blockSize
    }

    // The slices are, one after the other, the memory of the positions from `pos` on. So they lie
    // inside blocks and do not overlap.
    ghost predicate Covers(v: seq<IoVec>, pos: nat)
      requires blockSize > 0
      reads this`datas
    {
      v != [] ==> VecAt(v[|v| - 1], pos + Total(v[..|v| - 1])) && Covers(v[..|v| - 1], pos)
    }

    lemma {:induction false} CoversEach(v: seq<IoVec>, pos: nat, k: nat)
      requires blockSize > 0 && Covers(v, pos) && k < |v|
      ensures Total(v[..k + 1]) == Total(v[..k]) + v[k].len && Total(v[..k + 1]) <= Total(v) && VecAt(v[k], pos + Total(v[..k]))
    {
      var n := |v| - 1;
      assert v[..k + 1][..k] == v[..k];
      if k < n {
        CoversEach(v[..n], pos, k);
        assert v[..n][..k] == v[..k] && v[..n][..k + 1] == v[..k + 1];
      } else {
        assert v[..n + 1] == v;
      }
    }

    lemma {:induction false} TotalGrows(v: seq<IoVec>, i: nat, j: nat)
      requires i <= j <= |v|
      ensures Total(v[..i]) <= Total(v[..j])
      decreases j
    {
      if i < j {
        assert v[..j][..j - 1] == v[..j - 1];
        TotalGrows(v, i, j - 1);
      }
    }

    // The slices lie inside blocks, and no two of them share a byte of memory.
    lemma {:induction false} SlicesDisjoint(v: seq<IoVec>, pos: nat, i: nat, j: nat)
      requires Chain() && Covers(v, pos) && i < j < |v|
      ensures v[i].off + v[i].len <= v[i].base.Length && v[j].off + v[j].len <= v[j].base.Length
      ensures v[i].base == v[j].base ==> v[i].off + v[i].len <= v[j].off
    {
      CoversEach(v, pos, i);
      CoversEach(v, pos, j);
      TotalGrows(v, i + 1, j);
      var p, q := pos + Total(v[..i]), pos + Total(v[..j]);
      Locate(p, blockSize);
      Locate(q, blockSize);
      assert BlockIn(Blk(p, blockSize)) && BlockIn(Blk(q, blockSize));
    }

    // What a slice holds.
    lemma {:induction false} VecHolds(x: IoVec, pos: nat)
      requires Chain() && VecAt(x, pos) && pos + x.len <= capacity
      ensures x.off + x.len <= x.base.Length && |Flat(content)| == capacity
      ensures x.base[x.off..x.off + x.len] == Flat(content)[pos..pos + x.len]
    {
      SliceAt(pos, x.len);
    }

    lemma {:induction false} GatherCovers(v: seq<IoVec>, pos: nat)
      requires Chain() && Covers(v, pos) && pos + Total(v) <= capacity
      ensures InBounds(v) && |Flat(content)| == capacity && Gather(v) == Flat(content)[pos..pos + Total(v)]
    {
      FlatCapacity();
      if v != [] {
        var x, mid := v[|v| - 1], pos + Total(v[..|v| - 1]);
        GatherCovers(v[..|v| - 1], pos);
        VecHolds(x, mid);
        GatherStep(v, Flat(content), pos, mid, mid + x.len);
      }
    }

    lemma {:induction false} CoversMore(v: seq<IoVec>, pos: nat, x: IoVec)
      requires blockSize > 0 && Covers(v, pos) && VecAt(x, pos + Total(v))
      ensures Covers(v + [x], pos) && Total(v + [x]) == Total(v) + x.len
    {
      assert (v + [x])[..|v|] == v;
    }

    // The loop of get_read_buffers and get_write_buffers.
    method Slices(start: MemoryBlock?, from: nat, length: nat) returns (buffers: seq<IoVec>)
      requires Chain() && start == BlockAt(from) && (length > 0 ==> from + length < capacity)
      ensures Covers(buffers, from) && Total(buffers) == length
    {
      var pos, curBlock, left := from, start, length;
      buffers := [];
      while left > 0
        invariant 0 <= left <= length && pos == from + length - left && curBlock == BlockAt(pos)
        invariant Covers(buffers, from) && Total(buffers) == length - left
      {
        var blockPos := Off(pos, blockSize);
        var blockSpace := blockSize - blockPos;
        var size := if blockSpace < left then blockSpace else left;
        SliceAt(pos, size);
        CursorMoves(curBlock, pos, size);
        CoversMore(buffers, from, IoVec(curBlock.data, blockPos, size));
        buffers := buffers + [IoVec(curBlock.data, blockPos, size)];
        pos := pos + size;
        left := left - size;
        if Off(pos, blockSize) == 0 {
          curBlock := curBlock.next;
        }
      }
    }

    // get_read_buffers: the slices hold exactly the next unread bytes, and nothing changes.
    method GetReadBuffers(length: nat) returns (buffers: seq<IoVec>)
      requires Valid()
      ensures InBounds(buffers)
      ensures var n := if length < writePos - readPos then length else writePos - readPos;
              Gather(buffers) == Bytes()[readPos..readPos + n]
    {
      var n := if length < writePos - readPos then length else writePos - readPos;
      BytesSlice(readPos, readPos + n);
      buffers := Slices(readCur, readPos, n);
      GatherCovers(buffers, readPos);
    }

    // get_write_buffers: the slices are the memory of the next `length` positions.
    method GetWriteBuffers(length: nat) returns (buffers: seq<IoVec>)
      requires Valid()
      modifies this, blocks
      ensures Valid() && readPos == old(readPos) && writePos == old(writePos) && Bytes() == old(Bytes())
      ensures old(blocks) <= blocks && old(datas) <= datas
      ensures forall i | |old(blocks)| <= i < |blocks| :: fresh(blocks[i]) && fresh(datas[i])
      ensures Covers(buffers, writePos) && Total(buffers) == length && (length > 0 ==> writePos + length < capacity)
    {
      if length == 0 {
        return [];
      }
      FlatCapacity();
      ExpandCapacity(length);
      BytesPrefix(old(content), writePos);
      buffers := Slices(writeCur, writePos, length);
    }

    // While bytes are left to place, there is a next slice, and it is where they go.
    lemma NextSlice(v: seq<IoVec>, pos: nat, k: nat)
      requires blockSize > 0 && Covers(v, pos) && k <= |v| && Total(v[..k]) < Total(v)
      ensures k < |v| && VecAt(v[k], pos + Total(v[..k]))
      ensures Total(v[..k + 1]) == Total(v[..k]) + v[k].len && Total(v[..k + 1]) <= Total(v)
    {
      assert v[..|v|] == v;
      CoversEach(v, pos, k);
    }

    // readv: the kernel fills the slices in order with the bytes that arrived.
    method Scatter(buffers: seq<IoVec>, src: seq<byte>, ghost pos: nat)
      requires Chain() && Covers(buffers, pos) && |src| <= Total(buffers) && pos + Total(buffers) < capacity
      modifies this`content, datas
      ensures Chain() && |content| == |old(content)| && |Flat(content)| == |old(Flat(content))| == capacity
      ensures Flat(content)[..pos + |src|] == old(Flat(content))[..pos] + src
    {
      FlatCapacity();
      var k, filled: nat := 0, 0;
      ghost var before := Flat(content)[..pos];
      while filled < |src|
        invariant Chain() && |content| == |old(content)| && |Flat(content)| == capacity
        invariant k <= |buffers| && filled <= |src| && (filled < |src| ==> filled == Total(buffers[..k]))
        invariant Flat(content)[..pos + filled] == before + src[..filled]
      {
        ghost var flat := Flat(content)[..pos + filled];
        var n := ScatterOne(buffers, k, src[filled..], pos);
        ExtendBy(flat, before, src, filled, n);
        filled, k := filled + n, k + 1;
      }
      assert src[..filled] == src;
    }

    // The next slice takes what it can.
    method ScatterOne(buffers: seq<IoVec>, k: nat, rest: seq<byte>, ghost pos: nat) returns (n: nat)
      requires Chain() && Covers(buffers, pos) && k <= |buffers| && rest != [] && pos + Total(buffers) < capacity
      requires Total(buffers[..k]) + |rest| <= Total(buffers)
      modifies this`content, datas
      ensures Chain() && |content| == |old(content)| && |Flat(content)| == |old(Flat(content))| == capacity
      ensures k < |buffers| && 0 < n <= |rest| && (n < |rest| ==> Total(buffers[..k + 1]) == Total(buffers[..k]) + n)
      ensures var at := pos + Total(buffers[..k]);
              at + n <= capacity && Flat(content)[..at + n] == old(Flat(content))[..at] + rest[..n]
    {
      NextSlice(buffers, pos, k);
      n := if buffers[k].len < |rest| then buffers[k].len else |rest|;
      StoreVec(buffers[k], rest[..n], pos + Total(buffers[..k]));
    }

    method StoreVec(v: IoVec, src: seq<byte>, ghost pos: nat)
      requires Chain() && VecAt(v, pos) && |src| <= v.len && pos + |src| < capacity
      modifies this`content, datas
      ensures Chain() && |content| == |old(content)| && |Flat(content)| == |old(Flat(content))| == capacity
      ensures Flat(content)[..pos + |src|] == old(Flat(content))[..pos] + src
    {
      StorePrefix(v.base, v.off, src, pos);
    }
  }

  // A position that the check `pos > capacity_` lets pass: after a write of one byte, the write position
  // set to the capacity leaves the cursor on no block.
  method SeekToCapacity() returns (ba: ByteArray)
    ensures fresh(ba) && ba.Chain() && !ba.Valid() && ba.writePos == ba.capacity && ba.writeCur == null
  {
    ba := new ByteArray(4);
    ba.Write([7]);
    var pos := ba.capacity;
    Unique(|ba.blocks|, 0, ba.blockSize);
    var crashed := ba.SetWritePosition(pos);
  }
}
