/** Byte order (sylar/util.cpp, namespace Endian) on a little-endian host. */
module Endian {

  import opened Bytes

  const HALF: nat := 4

  function Pow256(n: nat): (p: nat)
    ensures p > 0
  {
    if n == 0 then 1 else 256 * Pow256(n - 1)
  }

  // The n bytes a little-endian host keeps for v, and the number that such bytes stand for.
  function InMemory(v: nat, n: nat): (s: seq<byte>)
    ensures |s| == n
  {
    if n == 0 then [] else [(v % 256) as byte] + InMemory(v / 256, n - 1)
  }

  function Loaded(s: seq<byte>): nat {
    if s == [] then 0 else s[0] as nat + 256 * Loaded(s[1..])
  }

  // Most significant byte first.
  function BigEndian(v: nat, n: nat): (s: seq<byte>)
    ensures |s| == n
  {
    if n == 0 then [] else BigEndian(v / 256, n - 1) + [(v % 256) as byte]
  }

  function FromBig(s: seq<byte>): nat {
    if s == [] then 0 else 256 * FromBig(s[..|s| - 1]) + s[|s| - 1] as nat
  }

  function Reversed(s: seq<byte>): (r: seq<byte>)
    ensures |r| == |s|
  {
    if s == [] then [] else Reversed(s[1..]) + [s[0]]
  }

  // htons, htonl, ntohs, ntohl: the number whose bytes are those of v the other way round.
  function Swap(v: nat, n: nat): nat {
    Loaded(Reversed(InMemory(v, n)))
  }

  // host_to_network and network_to_host of each width; the 64-bit one is put together from two
  // 32-bit halves.
  function HostToNetwork(v: nat, n: nat): nat {
    if n == 8 then Swap(v % TWO32, HALF) * TWO32 + Swap(v / TWO32, HALF) else Swap(v, n)
  }

  // ---------------------------------------------------------------- what they mean

  lemma {:induction false} MemoryLoad(s: seq<byte>)
    ensures Loaded(s) < Pow256(|s|) && InMemory(Loaded(s), |s|) == s
  {
    if s != [] {
      MemoryLoad(s[1..]);
      assert Loaded(s) / 256 == Loaded(s[1..]) && Loaded(s) % 256 == s[0] as nat;
    }
  }

  lemma {:induction false} LoadMemory(v: nat, n: nat)
    requires v < Pow256(n)
    ensures Loaded(InMemory(v, n)) == v
  {
    if n > 0 {
      LoadMemory(v / 256, n - 1);
      assert InMemory(v, n)[1..] == InMemory(v / 256, n - 1);
    }
  }

  lemma {:induction false} ReversedMemory(v: nat, n: nat)
    ensures Reversed(InMemory(v, n)) == BigEndian(v, n)
  {
    if n > 0 {
      ReversedMemory(v / 256, n - 1);
      assert InMemory(v, n)[1..] == InMemory(v / 256, n - 1);
    }
  }

  lemma {:induction false} BigRoundTrip(v: nat, n: nat)
    requires v < Pow256(n)
    ensures FromBig(BigEndian(v, n)) == v
  {
    if n > 0 {
      BigRoundTrip(v / 256, n - 1);
      assert BigEndian(v, n)[..n - 1] == BigEndian(v / 256, n - 1);
    }
  }

  lemma {:induction false} BigOfFromBig(s: seq<byte>)
    ensures FromBig(s) < Pow256(|s|) && BigEndian(FromBig(s), |s|) == s
  {
    if s != [] {
      BigOfFromBig(s[..|s| - 1]);
      assert FromBig(s) / 256 == FromBig(s[..|s| - 1]) && FromBig(s) % 256 == s[|s| - 1] as nat;
    }
  }

  lemma HalfWidth()
    ensures Pow256(HALF) == TWO32
  {
    assert Pow256(4) == 256 * 256 * 256 * 256;
  }

  lemma SwapMemory(v: nat, n: nat)
    ensures Swap(v, n) < Pow256(n) && InMemory(Swap(v, n), n) == BigEndian(v, n)
  {
    MemoryLoad(Reversed(InMemory(v, n)));
    ReversedMemory(v, n);
  }

  lemma {:induction false} MemorySplit(lo: nat, hi: nat, n: nat, k: nat)
    requires lo < Pow256(k)
    ensures InMemory(lo + Pow256(k) * hi, k + n) == InMemory(lo, k) + InMemory(hi, n)
    decreases k
  {
    if k == 0 {
      assert InMemory(lo, 0) + InMemory(hi, n) == InMemory(hi, n);
    } else {
      var v := lo + Pow256(k) * hi;
      assert v == lo + 256 * (Pow256(k - 1) * hi);
      assert v % 256 == lo % 256 && v / 256 == lo / 256 + Pow256(k - 1) * hi;
      MemorySplit(lo / 256, hi, n, k - 1);
    }
  }

  lemma {:induction false} BigSplit(hi: nat, lo: nat, n: nat, k: nat)
    requires lo < Pow256(k)
    ensures BigEndian(hi * Pow256(k) + lo, n + k) == BigEndian(hi, n) + BigEndian(lo, k)
    decreases k
  {
    if k == 0 {
      assert BigEndian(hi, n) + BigEndian(lo, 0) == BigEndian(hi, n);
    } else {
      var v := hi * Pow256(k) + lo;
      assert v == 256 * (hi * Pow256(k - 1)) + lo;
      assert v % 256 == lo % 256 && v / 256 == hi * Pow256(k - 1) + lo / 256;
      BigSplit(hi, lo / 256, n, k - 1);
    }
  }

  // Every fixed-width write leaves the bytes in network order, whatever the width.
  lemma NetworkOrder64(hi: nat, lo: nat)
    requires hi < TWO32 && lo < TWO32
    ensures InMemory(Swap(lo, HALF) * TWO32 + Swap(hi, HALF), HALF + HALF) == BigEndian(hi * TWO32 + lo, HALF + HALF)
  {
    HalfWidth();
    SwapMemory(lo, HALF);
    SwapMemory(hi, HALF);
    MemorySplit(Swap(hi, HALF), Swap(lo, HALF), HALF, HALF);
    BigSplit(hi, lo, HALF, HALF);
  }

  lemma NetworkOrder(v: nat, n: nat)
    requires n == 1 || n == 2 || n == 4 || n == 8
    requires v < Pow256(n)
    ensures InMemory(HostToNetwork(v, n), n) == BigEndian(v, n)
  {
    if n == 8 {
      assert Pow256(8) == TWO64;
      NetworkOrder64(v / TWO32, v % TWO32);
    } else {
      SwapMemory(v, n);
    }
  }

  lemma {:induction false} ReversedSnoc(s: seq<byte>, b: byte)
    ensures Reversed(s + [b]) == [b] + Reversed(s)
  {
    if s == [] {
      assert s + [b] == [b];
    } else {
      assert (s + [b])[1..] == s[1..] + [b];
      ReversedSnoc(s[1..], b);
    }
  }

  lemma {:induction false} LoadedReversed(s: seq<byte>)
    ensures Loaded(Reversed(s)) == FromBig(s)
  {
    if s != [] {
      var n := |s| - 1;
      LoadedReversed(s[..n]);
      ReversedSnoc(s[..n], s[n]);
      assert s[..n] + [s[n]] == s;
      assert ([s[n]] + Reversed(s[..n]))[1..] == Reversed(s[..n]);
    }
  }

  lemma SwapLoaded(s: seq<byte>)
    ensures Swap(Loaded(s), |s|) == FromBig(s)
  {
    MemoryLoad(s);
    LoadedReversed(s);
  }

  lemma {:induction false} LoadedConcat(a: seq<byte>, b: seq<byte>)
    ensures Loaded(a + b) == Loaded(a) + Pow256(|a|) * Loaded(b)
  {
    if a == [] {
      assert a + b == b;
    } else {
      LoadedConcat(a[1..], b);
      assert (a + b)[1..] == a[1..] + b;
      assert Pow256(|a|) * Loaded(b) == 256 * (Pow256(|a| - 1) * Loaded(b));
    }
  }

  lemma {:induction false} FromBigConcat(a: seq<byte>, b: seq<byte>)
    ensures FromBig(a + b) == FromBig(a) * Pow256(|b|) + FromBig(b)
    decreases |b|
  {
    if b == [] {
      assert a + b == a;
    } else {
      var n := |b| - 1;
      FromBigConcat(a, b[..n]);
      assert (a + b)[..|a + b| - 1] == a + b[..n];
      assert FromBig(a) * Pow256(|b|) == 256 * (FromBig(a) * Pow256(n));
    }
  }

  lemma Halves(v: nat, lo: nat, hi: nat)
    requires lo < TWO32 && v == lo + TWO32 * hi
    ensures HostToNetwork(v, 8) == Swap(lo, HALF) * TWO32 + Swap(hi, HALF)
  {
    assert v % TWO32 == lo && v / TWO32 == hi;
  }

  lemma Concat64(a: seq<byte>, b: seq<byte>)
    requires |a| == |b| == HALF
    ensures Loaded(a + b) == Loaded(a) + TWO32 * Loaded(b) && Loaded(a) < TWO32
    ensures FromBig(a + b) == FromBig(a) * TWO32 + FromBig(b)
  {
    HalfWidth();
    LoadedConcat(a, b);
    FromBigConcat(a, b);
    MemoryLoad(a);
  }

  lemma FromNetwork64(a: seq<byte>, b: seq<byte>)
    requires |a| == |b| == HALF
    ensures HostToNetwork(Loaded(a + b), 8) == FromBig(a + b)
  {
    Concat64(a, b);
    Halves(Loaded(a + b), Loaded(a), Loaded(b));
    assert Swap(Loaded(a), HALF) == FromBig(a) by { SwapLoaded(a); }
    assert Swap(Loaded(b), HALF) == FromBig(b) by { SwapLoaded(b); }
  }

  // A fixed-width read turns network order back into the number.
  lemma FromNetwork(s: seq<byte>)
    requires |s| == 1 || |s| == 2 || |s| == 4 || |s| == 8
    ensures HostToNetwork(Loaded(s), |s|) == FromBig(s)
  {
    if |s| == 8 {
      assert s == s[..4] + s[4..];
      FromNetwork64(s[..4], s[4..]);
    } else {
      SwapLoaded(s);
    }
  }
}
