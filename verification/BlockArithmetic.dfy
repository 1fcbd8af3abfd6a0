/**
 Positions in a chain of equal blocks. Quotient, remainder and product are defined by repeated
 subtraction and addition, which keeps proofs about them linear; `IsDivMod` and `IsProduct` say
 that they are the operators of the source.
 */
module BlockArithmetic {

  import opened Bytes

  // p / size
  function Blk(p: nat, size: nat): nat
    requires size > 0
    decreases p
  {
    if p < size then 0 else 1 + Blk(p - size, size)
  }

  // p % size
  function Off(p: nat, size: nat): (o: nat)
    requires size > 0
    ensures o < size
    decreases p
  {
    if p < size then p else Off(p - size, size)
  }

  // n * size
  function Cap(n: nat, size: nat): nat {
    if n == 0 then 0 else Cap(n - 1, size) + size
  }

  lemma IsProduct(n: nat, size: nat)
    ensures Cap(n, size) == n * size
  {
    if n > 0 {
      IsProduct(n - 1, size);
    }
  }

  lemma IsDivMod(p: nat, size: nat)
    requires size > 0
    ensures Blk(p, size) == p / size && Off(p, size) == p % size
  {
    Locate(p, size);
    IsProduct(Blk(p, size), size);
    var q, o := Blk(p, size), Off(p, size);
    assert p == q * size + o;
    assert (q * size + o) / size == q && (q * size + o) % size == o by {
      QuotientUnique(p, size, q, o);
    }
  }

  lemma QuotientUnique(p: nat, size: nat, q: nat, o: nat)
    requires size > 0 && p == q * size + o && o < size
    ensures p / size == q && p % size == o
  {
    var d := p / size - q;
    assert p == p / size * size + p % size;
    assert d * size == p / size * size - q * size;
    assert d > 0 ==> d * size >= size;
    assert d < 0 ==> d * size <= 0 - size;
  }

  lemma {:induction false} Locate(p: nat, size: nat)
    requires size > 0
    ensures p == Cap(Blk(p, size), size) + Off(p, size)
    decreases p
  {
    if p >= size {
      Locate(p - size, size);
    }
  }

  lemma {:induction false} Unique(i: nat, o: nat, size: nat)
    requires o < size
    ensures Blk(Cap(i, size) + o, size) == i && Off(Cap(i, size) + o, size) == o
  {
    if i > 0 {
      Unique(i - 1, o, size);
    }
  }

  lemma {:induction false} Monotone(i: nat, j: nat, size: nat)
    requires i <= j
    ensures Cap(i, size) <= Cap(j, size)
  {
    if i < j {
      Monotone(i, j - 1, size);
    }
  }

  // Moving by `n` bytes inside a block, or exactly to its end.
  lemma Advance(p: nat, n: nat, size: nat)
    requires size > 0 && Off(p, size) + n <= size
    ensures Off(p, size) + n < size ==> Blk(p + n, size) == Blk(p, size) && Off(p + n, size) == Off(p, size) + n
    ensures Off(p, size) + n == size ==> Blk(p + n, size) == Blk(p, size) + 1 && Off(p + n, size) == 0
  {
    Locate(p, size);
    if Off(p, size) + n < size {
      Unique(Blk(p, size), Off(p, size) + n, size);
    } else {
      Unique(Blk(p, size) + 1, 0, size);
    }
  }

  // A position below the capacity lies in one of the blocks.
  lemma Inside(p: nat, count: nat, size: nat)
    requires size > 0 && p < Cap(count, size)
    ensures Blk(p, size) < count
  {
    Locate(p, size);
    if count <= Blk(p, size) {
      Monotone(count, Blk(p, size), size);
    }
  }

  // ---------------------------------------------------------------- the bytes of a chain

  ghost predicate Uniform(c: seq<seq<byte>>, size: nat) {
    forall i | 0 <= i < |c| :: |c[i]| == size
  }

  // The blocks laid out one after the other.
  ghost function Flat(c: seq<seq<byte>>): seq<byte> {
    if c == [] then [] else Flat(c[..|c| - 1]) + c[|c| - 1]
  }

  lemma {:induction false} FlatLength(c: seq<seq<byte>>, size: nat)
    requires Uniform(c, size)
    ensures |Flat(c)| == Cap(|c|, size)
  {
    if c != [] {
      FlatLength(c[..|c| - 1], size);
    }
  }

  function Splice(s: seq<byte>, at: nat, src: seq<byte>): seq<byte>
    requires at + |src| <= |s|
  {
    s[..at] + src + s[at + |src|..]
  }

  lemma SpliceLeft(a: seq<byte>, b: seq<byte>, at: nat, src: seq<byte>)
    requires at + |src| <= |a|
    ensures Splice(a + b, at, src) == Splice(a, at, src) + b
  {
    assert (a + b)[..at] == a[..at];
    assert (a + b)[at + |src|..] == a[at + |src|..] + b;
  }

  lemma SpliceRight(a: seq<byte>, b: seq<byte>, at: nat, src: seq<byte>)
    requires at + |src| <= |b|
    ensures Splice(a + b, |a| + at, src) == a + Splice(b, at, src)
  {
    assert (a + b)[..|a| + at] == a + b[..at];
    assert (a + b)[|a| + at + |src|..] == b[at + |src|..];
  }

  // Block `i` is a slice of the flat sequence, at the place the blocks before it end.
  lemma {:induction false} FlatBlock(c: seq<seq<byte>>, i: nat)
    requires i < |c|
    ensures |Flat(c[..i])| + |c[i]| <= |Flat(c)|
    ensures Flat(c)[|Flat(c[..i])|..|Flat(c[..i])| + |c[i]|] == c[i]
  {
    var n := |c| - 1;
    if i < n {
      FlatBlock(c[..n], i);
      assert c[..n][..i] == c[..i];
    }
  }

  // Writing inside block `i` writes the same bytes into the flat sequence.
  lemma {:induction false} FlatUpdate(c: seq<seq<byte>>, i: nat, o: nat, src: seq<byte>)
    requires i < |c| && o + |src| <= |c[i]|
    ensures |Flat(c[..i])| + o + |src| <= |Flat(c)|
    ensures Flat(c[i := Splice(c[i], o, src)]) == Splice(Flat(c), |Flat(c[..i])| + o, src)
  {
    var n := |c| - 1;
    var c' := c[i := Splice(c[i], o, src)];
    FlatBlock(c, i);
    if i < n {
      assert c[..n][..i] == c[..i];
      FlatUpdate(c[..n], i, o, src);
      assert c'[..n] == c[..n][i := Splice(c[i], o, src)];
      FlatBlock(c[..n], i);
      SpliceLeft(Flat(c[..n]), c[n], |Flat(c[..i])| + o, src);
    } else {
      assert c'[..n] == c[..n];
      SpliceRight(Flat(c[..n]), c[n], o, src);
    }
  }

  // The blocks of a longer chain begin with the same bytes.
  lemma {:induction false} FlatPrefix(c: seq<seq<byte>>, c': seq<seq<byte>>)
    requires c <= c'
    ensures Flat(c) <= Flat(c')
  {
    if c == c' {
    } else {
      FlatPrefix(c, c'[..|c'| - 1]);
    }
  }
}
