/**
 Prefix arithmetic of IPv4 and IPv6 addresses (sylar/address.cpp): masks, network and broadcast
 addresses, and the count of a netmask's bits. Unsigned words are natural numbers; & and | work on
 their binary digits.
 */
module Addresses {

  import opened Bytes
  import opened Endian

  // ---------------------------------------------------------------- bits

  function Pow2(k: nat): (p: nat)
    ensures p > 0
  {
    if k == 0 then 1 else 2 * Pow2(k - 1)
  }

  function And(a: nat, b: nat): (r: nat)
    ensures r <= a && r <= b
  {
    if a == 0 || b == 0 then 0 else 2 * And(a / 2, b / 2) + (if a % 2 == 1 && b % 2 == 1 then 1 else 0)
  }

  function Or(a: nat, b: nat): (r: nat)
    ensures r >= a && r >= b
  {
    if a == 0 && b == 0 then 0 else 2 * Or(a / 2, b / 2) + (if a % 2 == 1 || b % 2 == 1 then 1 else 0)
  }

  // The lowest k bits, and the rest.
  function Low(a: nat, k: nat): (r: nat)
    ensures r <= a && r < Pow2(k)
  {
    if k == 0 then 0 else 2 * Low(a / 2, k - 1) + a % 2
  }

  function High(a: nat, k: nat): nat {
    if k == 0 then a else High(a / 2, k - 1)
  }

  function Bit(a: nat, i: nat): bool {
    High(a, i) % 2 == 1
  }

  function Ones(a: nat): nat {
    if a == 0 then 0 else Ones(a / 2) + a % 2
  }

  lemma {:induction false} HighLow(a: nat, k: nat)
    ensures a == High(a, k) * Pow2(k) + Low(a, k)
  {
    if k > 0 {
      HighLow(a / 2, k - 1);
      Doubled(High(a, k), k);
    }
  }

  // Two numbers agree from bit k on exactly when they are the same without their lowest k bits.
  lemma {:induction false} BitsAgree(a: nat, b: nat, k: nat)
    ensures High(a, k) == High(b, k) <==> forall i: nat | k <= i :: Bit(a, i) == Bit(b, i)
  {
    if forall i: nat | k <= i :: Bit(a, i) == Bit(b, i) {
      forall i: nat
        ensures Bit(High(a, k), i) == Bit(High(b, k), i)
      {
        HighHigh(a, k, i);
        HighHigh(b, k, i);
        assert Bit(a, k + i) == Bit(b, k + i);
      }
      SameBits(High(a, k), High(b, k));
    }
    if High(a, k) == High(b, k) {
      forall i: nat | k <= i
        ensures Bit(a, i) == Bit(b, i)
      {
        HighHigh(a, k, i - k);
        HighHigh(b, k, i - k);
      }
    }
  }

  lemma {:induction false} HighHigh(a: nat, k: nat, i: nat)
    ensures High(High(a, k), i) == High(a, k + i)
  {
    if k > 0 {
      HighHigh(a / 2, k - 1, i);
    }
  }

  lemma {:induction false} SameBits(a: nat, b: nat)
    requires forall i: nat :: Bit(a, i) == Bit(b, i)
    ensures a == b
  {
    assert Bit(a, 0) == Bit(b, 0);
    if a > 0 || b > 0 {
      forall i: nat
        ensures Bit(a / 2, i) == Bit(b / 2, i)
      {
        assert Bit(a, i + 1) == Bit(b, i + 1);
      }
      SameBits(a / 2, b / 2);
    }
  }

  // ---------------------------------------------------------------- prefixes as arithmetic

  // The first and the last address of the network of v, for addresses of w bits.
  function Network(v: nat, w: nat, p: nat): nat
    requires p <= w
  {
    v - Low(v, w - p)
  }

  function Broadcast(v: nat, w: nat, p: nat): nat
    requires p <= w
  {
    v - Low(v, w - p) + Pow2(w - p) - 1
  }

  lemma {:induction false} PrefixLaws(a: nat, b: nat, w: nat, p: nat)
    requires p <= w
    ensures Network(a, w, p) <= a <= Broadcast(a, w, p)
    ensures Broadcast(a, w, p) - Network(a, w, p) == Pow2(w - p) - 1
    ensures Network(a, w, p) == Network(b, w, p) <==> forall i: nat | w - p <= i :: Bit(a, i) == Bit(b, i)
  {
    HighLow(a, w - p);
    HighLow(b, w - p);
    BitsAgree(a, b, w - p);
    if Network(a, w, p) == Network(b, w, p) {
      SameFactor(High(a, w - p), High(b, w - p), Pow2(w - p));
    }
  }

  lemma SameFactor(x: nat, y: nat, p: nat)
    requires p > 0 && x * p == y * p
    ensures x == y
  {
    if x < y {
      Grows(x, y, p);
    } else if y < x {
      Grows(y, x, p);
    }
  }

  lemma Grows(x: nat, y: nat, p: nat)
    requires p > 0 && x < y
    ensures x * p < y * p
  {
    assert y * p == x * p + (y - x) * p;
  }

  // ---------------------------------------------------------------- masks

  const WORD: nat := 64

  // bit_mask<T> for a T of w bits: computed in 64 bits, cut to w.
  function BitMask(w: nat, prefix: nat): nat
    requires w <= WORD
  {
    var p := if prefix > w then w else prefix;
    Pow2Grows(w - p, WORD);
    Low(Pow2(WORD) - 1 - (Pow2(w - p) - 1), w)
  }

  lemma {:induction false} Pow2Grows(i: nat, j: nat)
    requires i <= j
    ensures Pow2(i) <= Pow2(j)
    decreases j - i
  {
    if i < j {
      Pow2Grows(i, j - 1);
    }
  }

  // A field of j bits below another number.
  lemma {:induction false} LowSplit(h: nat, l: nat, j: nat, k: nat)
    requires l < Pow2(j)
    ensures Low(h * Pow2(j) + l, j + k) == Low(h, k) * Pow2(j) + l
    decreases j
  {
    if j > 0 {
      Field(h, l, j);
      LowSplit(h, l / 2, j - 1, k);
      Doubled(Low(h, k), j);
      HalfLow(h * Pow2(j) + l, (j - 1) + k);
    }
  }

  lemma HalfLow(a: nat, k: nat)
    ensures Low(a, k + 1) == 2 * Low(a / 2, k) + a % 2
  {
  }

  lemma Doubled(x: nat, j: nat)
    requires j > 0
    ensures x * Pow2(j) == 2 * (x * Pow2(j - 1))
  {
  }

  // Halving moves through the field.
  lemma Field(h: nat, l: nat, j: nat)
    requires j > 0 && l < Pow2(j)
    ensures (h * Pow2(j) + l) / 2 == h * Pow2(j - 1) + l / 2 && (h * Pow2(j) + l) % 2 == l % 2 && l / 2 < Pow2(j - 1)
  {
    Doubled(h, j);
  }

  lemma {:induction false} Pow2Sum(i: nat, j: nat)
    ensures Pow2(i + j) == Pow2(i) * Pow2(j)
  {
    if i > 0 {
      Pow2Sum(i - 1, j);
      assert 2 * (Pow2(i - 1) * Pow2(j)) == Pow2(i) * Pow2(j);
    }
  }

  lemma {:induction false} CutOnes(word: nat, w: nat, k: nat)
    requires k <= w <= word
    ensures Pow2(k) <= Pow2(w) <= Pow2(word) && Low(Pow2(word) - Pow2(k), w) == Pow2(w) - Pow2(k)
  {
    Pow2Grows(k, w);
    Pow2Grows(w, word);
    if w > 0 {
      CutOnes(word - 1, w - 1, if k == 0 then 0 else k - 1);
      HalfOnes(word, k);
      HalfLow(Pow2(word) - Pow2(k), w - 1);
    }
  }

  lemma HalfOnes(w: nat, k: nat)
    requires k <= w && w > 0
    ensures Pow2(k) <= Pow2(w)
    ensures (Pow2(w) - Pow2(k)) / 2 == Pow2(w - 1) - Pow2(if k == 0 then 0 else k - 1)
    ensures (Pow2(w) - Pow2(k)) % 2 == if k == 0 then 1 else 0
  {
    Pow2Grows(k, w);
  }

  // The mask is p ones above w - p zeros.
  lemma MaskValue(w: nat, prefix: nat)
    requires w <= WORD
    ensures var p := if prefix > w then w else prefix; BitMask(w, prefix) == Pow2(w) - Pow2(w - p)
  {
    CutOnes(WORD, w, w - if prefix > w then w else prefix);
  }

  // What & and | with such a mask do.
  lemma {:induction false} AndMask(a: nat, w: nat, k: nat)
    requires k <= w && a < Pow2(w)
    ensures Pow2(k) <= Pow2(w) && And(a, Pow2(w) - Pow2(k)) == a - Low(a, k)
  {
    Pow2Grows(k, w);
    if w > 0 {
      AndMask(a / 2, w - 1, if k == 0 then 0 else k - 1);
      AndOnesHalf(a, w, k);
      if k > 0 {
        HalfLow(a, k - 1);
      }
    }
  }

  lemma {:induction false} AndOnesHalf(a: nat, w: nat, k: nat)
    requires k <= w && w > 0
    ensures var k' := if k == 0 then 0 else k - 1;
            && Pow2(k) <= Pow2(w) && Pow2(k') <= Pow2(w - 1)
            && And(a, Pow2(w) - Pow2(k)) == 2 * And(a / 2, Pow2(w - 1) - Pow2(k')) + if k == 0 then a % 2 else 0
  {
    HalfOnes(w, k);
    Pow2Grows(if k == 0 then 0 else k - 1, w - 1);
    DoubleAnd(a, Pow2(w) - Pow2(k));
  }

  lemma {:induction false} OrMask(a: nat, k: nat)
    ensures Or(a, Pow2(k) - 1) == a - Low(a, k) + Pow2(k) - 1
  {
    if k == 0 {
      OrZero(a);
    } else {
      OrMask(a / 2, k - 1);
      OrMaskHalf(a, k);
      HalfLow(a, k - 1);
      MaskSum(a, Low(a / 2, k - 1), Pow2(k - 1));
    }
  }

  lemma {:induction false} OrMaskHalf(a: nat, k: nat)
    requires k > 0
    ensures Or(a, Pow2(k) - 1) == 2 * Or(a / 2, Pow2(k - 1) - 1) + 1
  {
    OrOdd(a, Pow2(k - 1) - 1);
  }

  lemma MaskSum(a: nat, l: nat, p: nat)
    ensures 2 * (a / 2 - l + p - 1) + 1 == a - (2 * l + a % 2) + 2 * p - 1
  {
  }

  lemma {:induction false} OrOdd(a: nat, m: nat)
    ensures Or(a, 2 * m + 1) == 2 * Or(a / 2, m) + 1
  {
    assert (2 * m + 1) / 2 == m && (2 * m + 1) % 2 == 1;
    DoubleOr(a, 2 * m + 1);
  }

  lemma {:induction false} OrZero(a: nat)
    ensures Or(a, 0) == a
  {
    if a > 0 {
      OrZero(a / 2);
    }
  }

  // ---------------------------------------------------------------- counting the bits of a mask

  // The loop over a netmask: each round clears the lowest bit that is set.
  method CountBits(word: nat) returns (n: nat)
    ensures n == Ones(word)
  {
    var mask := word;
    n := 0;
    while mask != 0
      invariant n + Ones(mask) == Ones(word)
    {
      ClearLowest(mask);
      mask := And(mask, mask - 1);
      n := n + 1;
    }
  }

  lemma {:induction false} ClearLowest(m: nat)
    requires m > 0
    ensures Ones(And(m, m - 1)) == Ones(m) - 1
  {
    HalfAnd(m, m - 1);
    if m % 2 == 1 {
      AndSelf(m / 2);
      assert And(m, m - 1) == m - 1;
    } else {
      ClearLowest(m / 2);
      assert (m - 1) / 2 == m / 2 - 1;
    }
  }

  lemma {:induction false} AndSelf(m: nat)
    ensures And(m, m) == m
  {
    if m > 0 {
      AndSelf(m / 2);
    }
  }

  lemma {:induction false} OnesOfRun(w: nat, k: nat)
    requires k <= w
    ensures Pow2(k) <= Pow2(w) && Ones(Pow2(w) - Pow2(k)) == w - k
  {
    Pow2Grows(k, w);
    if w > 0 {
      var m := Pow2(w) - Pow2(k);
      if k == 0 {
        OnesOfRun(w - 1, 0);
        assert m / 2 == Pow2(w - 1) - 1 && m % 2 == 1;
      } else {
        OnesOfRun(w - 1, k - 1);
        assert m / 2 == Pow2(w - 1) - Pow2(k - 1) && m % 2 == 0;
      }
    }
  }

  // Counting the bits of bit_mask(p) gives back p.
  lemma MaskBits(w: nat, p: nat)
    requires p <= w <= WORD
    ensures Ones(BitMask(w, p)) == p
  {
    MaskValue(w, p);
    OnesOfRun(w, w - p);
  }

  // ---------------------------------------------------------------- words and their bytes

  const BYTE: nat := 8

  lemma ByteWide()
    ensures Pow2(BYTE) == 256
  {
    assert Pow2(8) == 2 * 2 * 2 * 2 * 2 * 2 * 2 * 2;
  }

  // h, with j bits of l behind it.
  function Put(h: nat, l: nat, j: nat): nat {
    if j == 0 then h else 2 * Put(h, l / 2, j - 1) + l % 2
  }

  lemma {:induction false} PutValue(h: nat, l: nat, j: nat)
    requires l < Pow2(j)
    ensures Put(h, l, j) == h * Pow2(j) + l
  {
    if j > 0 {
      PutValue(h, l / 2, j - 1);
      Doubled(h, j);
    }
  }

  lemma PutByte(h: nat, l: nat)
    requires l < 256
    ensures Put(h, l, BYTE) == 256 * h + l
  {
    ByteWide();
    PutValue(h, l, BYTE);
  }

  lemma {:induction false} AndPut(h: nat, l: nat, h': nat, l': nat, j: nat)
    ensures And(Put(h, l, j), Put(h', l', j)) == Put(And(h, h'), And(l, l'), j)
  {
    if j > 0 {
      AndPut(h, l / 2, h', l' / 2, j - 1);
      AndPair(Put(h, l / 2, j - 1), l % 2, Put(h', l' / 2, j - 1), l' % 2);
      HalfAnd(l, l');
    }
  }

  lemma {:induction false} AndPair(x: nat, b: nat, y: nat, c: nat)
    requires b < 2 && c < 2
    ensures And(2 * x + b, 2 * y + c) == 2 * And(x, y) + if b == 1 && c == 1 then 1 else 0
  {
    assert (2 * x + b) / 2 == x && (2 * x + b) % 2 == b && (2 * y + c) / 2 == y && (2 * y + c) % 2 == c;
    DoubleAnd(2 * x + b, 2 * y + c);
  }

  lemma {:induction false} HalfAnd(a: nat, b: nat)
    ensures And(a, b) / 2 == And(a / 2, b / 2) && And(a, b) % 2 == if a % 2 == 1 && b % 2 == 1 then 1 else 0
  {
  }

  lemma {:induction false} DoubleAnd(a: nat, b: nat)
    ensures And(a, b) == 2 * And(a / 2, b / 2) + if a % 2 == 1 && b % 2 == 1 then 1 else 0
  {
  }

  lemma AndSplit(h: nat, l: nat, h': nat, l': nat)
    requires l < 256 && l' < 256 && And(l, l') < 256
    ensures And(256 * h + l, 256 * h' + l') == 256 * And(h, h') + And(l, l')
  {
    PutByte(h, l);
    PutByte(h', l');
    PutByte(And(h, h'), And(l, l'));
    AndPut(h, l, h', l', BYTE);
  }

  lemma {:induction false} OrPut(h: nat, l: nat, h': nat, l': nat, j: nat)
    ensures Or(Put(h, l, j), Put(h', l', j)) == Put(Or(h, h'), Or(l, l'), j)
  {
    if j > 0 {
      OrPut(h, l / 2, h', l' / 2, j - 1);
      OrPair(Put(h, l / 2, j - 1), l % 2, Put(h', l' / 2, j - 1), l' % 2);
      HalfOr(l, l');
    }
  }

  lemma {:induction false} OrPair(x: nat, b: nat, y: nat, c: nat)
    requires b < 2 && c < 2
    ensures Or(2 * x + b, 2 * y + c) == 2 * Or(x, y) + if b == 1 || c == 1 then 1 else 0
  {
    assert (2 * x + b) / 2 == x && (2 * x + b) % 2 == b && (2 * y + c) / 2 == y && (2 * y + c) % 2 == c;
    DoubleOr(2 * x + b, 2 * y + c);
  }

  lemma {:induction false} HalfOr(a: nat, b: nat)
    ensures Or(a, b) / 2 == Or(a / 2, b / 2) && Or(a, b) % 2 == if a % 2 == 1 || b % 2 == 1 then 1 else 0
  {
  }

  lemma {:induction false} DoubleOr(a: nat, b: nat)
    ensures Or(a, b) == 2 * Or(a / 2, b / 2) + if a % 2 == 1 || b % 2 == 1 then 1 else 0
  {
  }

  lemma OrSplit(h: nat, l: nat, h': nat, l': nat)
    requires l < 256 && l' < 256 && Or(l, l') < 256
    ensures Or(256 * h + l, 256 * h' + l') == 256 * Or(h, h') + Or(l, l')
  {
    PutByte(h, l);
    PutByte(h', l');
    PutByte(Or(h, h'), Or(l, l'));
    OrPut(h, l, h', l', BYTE);
  }

  lemma {:induction false} OrSmall(a: nat, b: nat, k: nat)
    requires a < Pow2(k) && b < Pow2(k)
    ensures Or(a, b) < Pow2(k)
  {
    if k > 0 {
      OrSmall(a / 2, b / 2, k - 1);
    }
  }

  // & and | of bytes.
  function AndByte(a: byte, b: byte): byte {
    And(a as nat, b as nat) as byte
  }

  function OrByte(a: byte, b: byte): byte {
    ByteWide();
    OrSmall(a as nat, b as nat, BYTE);
    Or(a as nat, b as nat) as byte
  }

  function AndBytes(s: seq<byte>, t: seq<byte>): seq<byte>
    requires |s| == |t|
  {
    seq(|s|, i requires 0 <= i < |s| => AndByte(s[i], t[i]))
  }

  function OrBytes(s: seq<byte>, t: seq<byte>): seq<byte>
    requires |s| == |t|
  {
    seq(|s|, i requires 0 <= i < |s| => OrByte(s[i], t[i]))
  }

  // Word operations are byte operations, in either byte order.
  lemma {:induction false} AndLoaded(s: seq<byte>, t: seq<byte>)
    requires |s| == |t|
    ensures And(Loaded(s), Loaded(t)) == Loaded(AndBytes(s, t))
  {
    if s != [] {
      AndLoaded(s[1..], t[1..]);
      AndFirst(s, t);
      AndSplit(Loaded(s[1..]), s[0] as nat, Loaded(t[1..]), t[0] as nat);
    }
  }

  lemma {:induction false} OrLoaded(s: seq<byte>, t: seq<byte>)
    requires |s| == |t|
    ensures Or(Loaded(s), Loaded(t)) == Loaded(OrBytes(s, t))
  {
    if s != [] {
      OrLoaded(s[1..], t[1..]);
      OrFirst(s, t);
      OrSplit(Loaded(s[1..]), s[0] as nat, Loaded(t[1..]), t[0] as nat);
    }
  }

  lemma {:induction false} AndBig(s: seq<byte>, t: seq<byte>)
    requires |s| == |t|
    ensures And(FromBig(s), FromBig(t)) == FromBig(AndBytes(s, t))
  {
    if s != [] {
      var n := |s| - 1;
      AndBig(s[..n], t[..n]);
      AndLast(s, t);
      AndSplit(FromBig(s[..n]), s[n] as nat, FromBig(t[..n]), t[n] as nat);
    }
  }

  lemma {:induction false} AndFirst(s: seq<byte>, t: seq<byte>)
    requires |s| == |t| && s != []
    ensures Loaded(AndBytes(s, t)) == And(s[0] as nat, t[0] as nat) + 256 * Loaded(AndBytes(s[1..], t[1..]))
    ensures And(s[0] as nat, t[0] as nat) < 256
    ensures Loaded(s) == s[0] as nat + 256 * Loaded(s[1..]) && Loaded(t) == t[0] as nat + 256 * Loaded(t[1..])
  {
    var r := AndBytes(s, t);
    assert r[1..] == AndBytes(s[1..], t[1..]) && r[0] == AndByte(s[0], t[0]);
  }

  lemma {:induction false} AndLast(s: seq<byte>, t: seq<byte>)
    requires |s| == |t| && s != []
    ensures var n := |s| - 1;
            && FromBig(AndBytes(s, t)) == 256 * FromBig(AndBytes(s[..n], t[..n])) + And(s[n] as nat, t[n] as nat)
            && And(s[n] as nat, t[n] as nat) < 256
            && FromBig(s) == 256 * FromBig(s[..n]) + s[n] as nat && FromBig(t) == 256 * FromBig(t[..n]) + t[n] as nat
  {
    var n, r := |s| - 1, AndBytes(s, t);
    assert r[..n] == AndBytes(s[..n], t[..n]) && r[n] == AndByte(s[n], t[n]);
  }

  lemma {:induction false} OrBig(s: seq<byte>, t: seq<byte>)
    requires |s| == |t|
    ensures Or(FromBig(s), FromBig(t)) == FromBig(OrBytes(s, t))
  {
    if s != [] {
      var n := |s| - 1;
      OrBig(s[..n], t[..n]);
      OrLast(s, t);
      OrSplit(FromBig(s[..n]), s[n] as nat, FromBig(t[..n]), t[n] as nat);
    }
  }

  lemma {:induction false} OrFirst(s: seq<byte>, t: seq<byte>)
    requires |s| == |t| && s != []
    ensures Loaded(OrBytes(s, t)) == Or(s[0] as nat, t[0] as nat) + 256 * Loaded(OrBytes(s[1..], t[1..]))
    ensures Or(s[0] as nat, t[0] as nat) < 256
    ensures Loaded(s) == s[0] as nat + 256 * Loaded(s[1..]) && Loaded(t) == t[0] as nat + 256 * Loaded(t[1..])
  {
    var r := OrBytes(s, t);
    assert r[1..] == OrBytes(s[1..], t[1..]) && r[0] == OrByte(s[0], t[0]);
  }

  lemma {:induction false} OrLast(s: seq<byte>, t: seq<byte>)
    requires |s| == |t| && s != []
    ensures var n := |s| - 1;
            && FromBig(OrBytes(s, t)) == 256 * FromBig(OrBytes(s[..n], t[..n])) + Or(s[n] as nat, t[n] as nat)
            && Or(s[n] as nat, t[n] as nat) < 256
            && FromBig(s) == 256 * FromBig(s[..n]) + s[n] as nat && FromBig(t) == 256 * FromBig(t[..n]) + t[n] as nat
  {
    var n, r := |s| - 1, OrBytes(s, t);
    assert r[..n] == OrBytes(s[..n], t[..n]) && r[n] == OrByte(s[n], t[n]);
  }

  // ---------------------------------------------------------------- IPv4

  // The memory of a word after `word &= htonl(m)` and `word |= htonl(m)`.
  function AndStored(s: seq<byte>, m: nat): seq<byte> {
    InMemory(And(Loaded(s), Swap(m, |s|)), |s|)
  }

  function OrStored(s: seq<byte>, m: nat): seq<byte> {
    InMemory(Or(Loaded(s), Swap(m, |s|)), |s|)
  }

  // get_network_address and get_broadcast_address on the memory of s_addr, four bytes for IPv4.
  function NetworkWord(s: seq<byte>, p: nat): seq<byte>
    requires BYTE * |s| <= WORD
  {
    if p < BYTE * |s| then AndStored(s, BitMask(BYTE * |s|, p)) else s
  }

  function BroadcastWord(s: seq<byte>, p: nat): seq<byte>
    requires BYTE * |s| <= WORD
  {
    MaskValue(BYTE * |s|, p);
    if p < BYTE * |s| then OrStored(s, Pow2(BYTE * |s|) - 1 - BitMask(BYTE * |s|, p)) else s
  }

  // A word operation on the memory is the same operation on the addresses, whatever the byte order.
  lemma AndInMemory(s: seq<byte>, m: nat)
    requires m < Pow256(|s|)
    ensures FromBig(AndStored(s, m)) == And(FromBig(s), m)
  {
    var n, t := |s|, BigEndian(m, |s|);
    ReversedMemory(m, n);
    AndLoaded(s, t);
    MemoryLoad(AndBytes(s, t));
    AndBig(s, t);
    BigRoundTrip(m, n);
  }

  lemma OrInMemory(s: seq<byte>, m: nat)
    requires m < Pow256(|s|)
    ensures FromBig(OrStored(s, m)) == Or(FromBig(s), m)
  {
    var n, t := |s|, BigEndian(m, |s|);
    ReversedMemory(m, n);
    OrLoaded(s, t);
    MemoryLoad(OrBytes(s, t));
    OrBig(s, t);
    BigRoundTrip(m, n);
  }

  lemma {:induction false} BytesOfBits(n: nat)
    ensures Pow256(n) == Pow2(BYTE * n)
  {
    if n > 0 {
      BytesOfBits(n - 1);
      ByteWide();
      Pow2Sum(BYTE, BYTE * (n - 1));
    }
  }

  lemma {:induction false} NetworkInMemory(s: seq<byte>, w: nat, p: nat)
    requires w == BYTE * |s| && p <= w
    ensures Pow2(w - p) <= Pow2(w) && FromBig(AndStored(s, Pow2(w) - Pow2(w - p))) == Network(FromBig(s), w, p)
  {
    BytesOfBits(|s|);
    BigOfFromBig(s);
    Pow2Grows(w - p, w);
    AndInMemory(s, Pow2(w) - Pow2(w - p));
    AndMask(FromBig(s), w, w - p);
  }

  lemma {:induction false} BroadcastInMemory(s: seq<byte>, w: nat, p: nat)
    requires w == BYTE * |s| && p <= w
    ensures FromBig(OrStored(s, Pow2(w - p) - 1)) == Broadcast(FromBig(s), w, p)
  {
    BytesOfBits(|s|);
    Pow2Grows(w - p, w);
    OrInMemory(s, Pow2(w - p) - 1);
    OrMask(FromBig(s), w - p);
  }

  // The network and broadcast addresses as numbers; a prefix beyond the width changes nothing.
  lemma {:induction false} PrefixWord(s: seq<byte>, w: nat, p: nat, q: nat)
    requires w == BYTE * |s| <= WORD && q == if p < w then p else w
    ensures FromBig(NetworkWord(s, p)) == Network(FromBig(s), w, q)
    ensures FromBig(BroadcastWord(s, p)) == Broadcast(FromBig(s), w, q)
  {
    if p < w {
      NetworkOfWord(s, w, p);
      BroadcastOfWord(s, w, p);
    }
  }

  lemma {:induction false} NetworkOfWord(s: seq<byte>, w: nat, p: nat)
    requires w == BYTE * |s| <= WORD && p < w
    ensures FromBig(NetworkWord(s, p)) == Network(FromBig(s), w, p)
  {
    WordsMasked(s, w, p);
    NetworkInMemory(s, w, p);
  }

  lemma {:induction false} BroadcastOfWord(s: seq<byte>, w: nat, p: nat)
    requires w == BYTE * |s| <= WORD && p < w
    ensures FromBig(BroadcastWord(s, p)) == Broadcast(FromBig(s), w, p)
  {
    WordsMasked(s, w, p);
    BroadcastInMemory(s, w, p);
  }

  lemma {:induction false} WordsMasked(s: seq<byte>, w: nat, p: nat)
    requires w == BYTE * |s| <= WORD && p < w
    ensures Pow2(w - p) <= Pow2(w)
    ensures NetworkWord(s, p) == AndStored(s, Pow2(w) - Pow2(w - p)) && BroadcastWord(s, p) == OrStored(s, Pow2(w - p) - 1)
  {
    Pow2Grows(w - p, w);
    MaskValue(w, p);
  }

  lemma {:induction false} BigInjective(s: seq<byte>, t: seq<byte>)
    requires |s| == |t| && FromBig(s) == FromBig(t)
    ensures s == t
  {
    BigOfFromBig(s);
    BigOfFromBig(t);
  }

  // IPv4, for every prefix within the width; an IPv4 address has four bytes.
  lemma {:induction false} LawsV4(s: seq<byte>, t: seq<byte>, w: nat, p: nat)
    requires |s| == |t| && w == BYTE * |s| <= WORD && p <= w
    ensures FromBig(NetworkWord(s, p)) <= FromBig(s) <= FromBig(BroadcastWord(s, p))
    ensures FromBig(BroadcastWord(s, p)) - FromBig(NetworkWord(s, p)) == Pow2(w - p) - 1
    ensures NetworkWord(s, p) == NetworkWord(t, p) <==> forall i: nat | w - p <= i :: Bit(FromBig(s), i) == Bit(FromBig(t), i)
  {
    PrefixWord(s, w, p, p);
    PrefixWord(t, w, p, p);
    PrefixLaws(FromBig(s), FromBig(t), w, p);
    if FromBig(NetworkWord(s, p)) == FromBig(NetworkWord(t, p)) {
      BigInjective(NetworkWord(s, p), NetworkWord(t, p));
    }
  }

  // ---------------------------------------------------------------- IPv6

  const V6: nat := 128

  // What the loops leave: the bytes before the cut, the byte at it, and a fill behind it.
  function Cut(s: seq<byte>, p: nat, edge: byte, fill: byte): seq<byte>
    requires p / 8 < |s|
  {
    s[..p / 8] + [edge] + seq(|s| - p / 8 - 1, _ => fill)
  }

  lemma CutAt(s: seq<byte>, p: nat, edge: byte, fill: byte)
    requires p / 8 < |s|
    ensures var t := Cut(s, p, edge, fill);
            |t| == |s| && forall i | 0 <= i < |s| :: t[i] == if i < p / 8 then s[i] else if i == p / 8 then edge else fill
  {
  }

  // bit_mask<uint8_t>
  function MaskByte(q: nat): (m: byte)
    requires q < 8
    ensures Pow2(BYTE) == 256 && m as nat == Pow2(BYTE) - Pow2(BYTE - q)
  {
    MaskValue(BYTE, q);
    ByteWide();
    BitMask(BYTE, q) as byte
  }

  function Edge(s: seq<byte>, p: nat): byte
    requires p / 8 < |s|
  {
    AndByte(s[p / 8], MaskByte(p % 8))
  }

  function EdgeUp(s: seq<byte>, p: nat): byte
    requires p / 8 < |s|
  {
    OrByte(s[p / 8], 255 - MaskByte(p % 8))
  }

  method NetworkV6(address: array<byte>, p: nat) returns (network: array<byte>)
    requires address.Length == 16
    ensures fresh(network) && network.Length == 16
    ensures network[..] == NetworkBytes(address[..], p)
  {
    network := Copied(address);
    if p < V6 {
      ghost var want := Cut(address[..], p, Edge(address[..], p), 0);
      CutAt(address[..], p, Edge(address[..], p), 0);
      network[p / 8] := Edge(network[..], p);
      for i := p / 8 + 1 to 16
        invariant forall k | 0 <= k < i :: network[k] == want[k]
      {
        network[i] := 0;
      }
    }
  }

  method BroadcastV6(address: array<byte>, p: nat) returns (broadcast: array<byte>)
    requires address.Length == 16
    ensures fresh(broadcast) && broadcast.Length == 16
    ensures broadcast[..] == BroadcastBytes(address[..], p)
  {
    broadcast := Copied(address);
    if p < V6 {
      ghost var want := Cut(address[..], p, EdgeUp(address[..], p), 255);
      CutAt(address[..], p, EdgeUp(address[..], p), 255);
      broadcast[p / 8] := EdgeUp(broadcast[..], p);
      for i := p / 8 + 1 to 16
        invariant forall k | 0 <= k < i :: broadcast[k] == want[k]
      {
        broadcast[i] := 255;
      }
    }
  }

  method Copied(address: array<byte>) returns (copy: array<byte>)
    ensures fresh(copy) && copy.Length == address.Length && copy[..] == address[..]
  {
    copy := new byte[address.Length](i requires 0 <= i < address.Length reads address => address[i]);
  }

  lemma ByteMore(k: nat)
    ensures Pow2(k + BYTE) == 256 * Pow2(k)
  {
    ByteWide();
    Pow2Sum(BYTE, k);
  }

  // A byte more on the right.
  lemma LowByte(v: nat, b: nat, k: nat)
    requires b < 256
    ensures Low(256 * v + b, k + BYTE) == 256 * Low(v, k) + b
  {
    ByteWide();
    LowSplit(v, b, BYTE, k);
  }

  lemma {:induction false} LowInByte(v: nat, b: nat, k: nat)
    requires b < 256 && k <= BYTE
    ensures Low(256 * v + b, k) == Low(b, k)
  {
    PutByte(v, b);
    LowPut(v, b, BYTE, k);
  }

  lemma {:induction false} LowPut(h: nat, l: nat, j: nat, k: nat)
    requires k <= j
    ensures Low(Put(h, l, j), k) == Low(l, k)
  {
    if k > 0 {
      LowPut(h, l / 2, j - 1, k - 1);
    }
  }

  // The byte at the cut.
  lemma {:induction false} EdgeDown(b: byte, m: byte, w: nat, k: nat)
    requires k <= w && Pow2(w) == 256 && m as nat == 256 - Pow2(k)
    ensures AndByte(b, m) as nat == b as nat - Low(b as nat, k)
  {
    AndMask(b as nat, w, k);
  }

  lemma {:induction false} EdgeFull(b: byte, m: byte, k: nat)
    requires m as nat == 256 - Pow2(k)
    ensures OrByte(b, 255 - m) as nat == b as nat - Low(b as nat, k) + Pow2(k) - 1
  {
    OrMask(b as nat, k);
  }

  // The byte loops compute the formula on the whole number, for any length of address.
  lemma {:induction false} NetworkOfCut(s: seq<byte>, p: nat, edge: byte)
    requires p / 8 < |s| && edge as nat == s[p / 8] as nat - Low(s[p / 8] as nat, BYTE - p % 8)
    ensures FromBig(Cut(s, p, edge, 0)) == Network(FromBig(s), 8 * |s|, p)
  {
    var n := |s| - 1;
    var v, b, k := FromBig(s[..n]), s[n] as nat, 8 * |s| - p;
    if p / 8 == n {
      LowInByte(v, b, k);
      CutLast(s, p, edge, 0);
    } else {
      NetworkOfCut(s[..n], p, edge);
      LowByte(v, b, k - BYTE);
      CutMore(s, p, edge, 0);
    }
  }

  lemma {:induction false} BroadcastOfCut(s: seq<byte>, p: nat, edge: byte)
    requires p / 8 < |s| && edge as nat == s[p / 8] as nat - Low(s[p / 8] as nat, BYTE - p % 8) + Pow2(BYTE - p % 8) - 1
    ensures FromBig(Cut(s, p, edge, 255)) == Broadcast(FromBig(s), 8 * |s|, p)
  {
    var n := |s| - 1;
    var v, b, k := FromBig(s[..n]), s[n] as nat, 8 * |s| - p;
    if p / 8 == n {
      LowInByte(v, b, k);
      CutLast(s, p, edge, 255);
    } else {
      BroadcastOfCut(s[..n], p, edge);
      BroadcastStep(s, p, edge);
    }
  }

  lemma {:induction false} BroadcastStep(s: seq<byte>, p: nat, edge: byte)
    requires p / 8 < |s| - 1
    requires var n := |s| - 1; FromBig(Cut(s[..n], p, edge, 255)) == Broadcast(FromBig(s[..n]), 8 * n, p)
    ensures FromBig(Cut(s, p, edge, 255)) == Broadcast(FromBig(s), 8 * |s|, p)
  {
    var n := |s| - 1;
    CutMore(s, p, edge, 255);
    BroadcastMore(FromBig(s[..n]), s[n] as nat, 8 * n - p);
  }

  lemma {:induction false} CutLast(s: seq<byte>, p: nat, edge: byte, fill: byte)
    requires p / 8 == |s| - 1
    ensures FromBig(Cut(s, p, edge, fill)) == 256 * FromBig(s[..|s| - 1]) + edge as nat
  {
    var n, t := |s| - 1, Cut(s, p, edge, fill);
    assert t[..n] == s[..n] && t[n] == edge;
  }

  lemma {:induction false} CutMore(s: seq<byte>, p: nat, edge: byte, fill: byte)
    requires p / 8 < |s| - 1
    ensures FromBig(Cut(s, p, edge, fill)) == 256 * FromBig(Cut(s[..|s| - 1], p, edge, fill)) + fill as nat
  {
    var n, t := |s| - 1, Cut(s, p, edge, fill);
    assert t[..n] == Cut(s[..n], p, edge, fill) && t[n] == fill;
  }

  lemma {:induction false} BroadcastMore(v: nat, b: nat, k: nat)
    requires b < 256
    ensures (256 * v + b) - Low(256 * v + b, k + BYTE) + Pow2(k + BYTE) - 1 == 256 * (v - Low(v, k) + Pow2(k) - 1) + 255
  {
    LowByte(v, b, k);
    ByteMore(k);
  }

  // The network and broadcast addresses that the byte loops leave.
  function NetworkBytes(s: seq<byte>, p: nat): seq<byte> {
    if p / 8 < |s| then Cut(s, p, Edge(s, p), 0) else s
  }

  function BroadcastBytes(s: seq<byte>, p: nat): seq<byte> {
    if p / 8 < |s| then Cut(s, p, EdgeUp(s, p), 255) else s
  }

  lemma {:induction false} PrefixBytes(s: seq<byte>, w: nat, p: nat)
    requires w == 8 * |s| && p <= w
    ensures FromBig(NetworkBytes(s, p)) == Network(FromBig(s), w, p)
    ensures FromBig(BroadcastBytes(s, p)) == Broadcast(FromBig(s), w, p)
  {
    if p < w {
      EdgeDown(s[p / 8], MaskByte(p % 8), BYTE, BYTE - p % 8);
      EdgeFull(s[p / 8], MaskByte(p % 8), BYTE - p % 8);
      NetworkOfCut(s, p, Edge(s, p));
      BroadcastOfCut(s, p, EdgeUp(s, p));
    }
  }

  // IPv6, for every prefix within the width; an IPv6 address has 16 bytes.
  lemma {:induction false} LawsV6(s: seq<byte>, t: seq<byte>, w: nat, p: nat)
    requires |s| == |t| && w == 8 * |s| && p <= w
    ensures FromBig(NetworkBytes(s, p)) <= FromBig(s) <= FromBig(BroadcastBytes(s, p))
    ensures FromBig(BroadcastBytes(s, p)) - FromBig(NetworkBytes(s, p)) == Pow2(w - p) - 1
    ensures NetworkBytes(s, p) == NetworkBytes(t, p) <==> forall i: nat | w - p <= i :: Bit(FromBig(s), i) == Bit(FromBig(t), i)
  {
    PrefixBytes(s, w, p);
    PrefixBytes(t, w, p);
    PrefixLaws(FromBig(s), FromBig(t), w, p);
    if FromBig(NetworkBytes(s, p)) == FromBig(NetworkBytes(t, p)) {
      BigInjective(NetworkBytes(s, p), NetworkBytes(t, p));
    }
  }

  // ---------------------------------------------------------------- the bits of an IPv6 netmask

  // The loops over the bytes of a netmask.
  method CountMaskBits(mask: array<byte>) returns (n: nat)
    ensures n == OnesOf(mask[..])
  {
    n := 0;
    for i := 0 to mask.Length
      invariant n == OnesOf(mask[..i])
    {
      var k := CountBits(mask[i] as nat);
      assert mask[..i + 1][..i] == mask[..i];
      n := n + k;
    }
    assert mask[..mask.Length] == mask[..];
  }

  function OnesOf(s: seq<byte>): nat {
    if s == [] then 0 else OnesOf(s[..|s| - 1]) + Ones(s[|s| - 1] as nat)
  }

  // The netmask of prefix p, and the count that comes out of it.
  lemma {:induction false} NetmaskBits(s: seq<byte>, p: nat)
    requires p <= 8 * |s| && forall i | 0 <= i < |s| :: s[i] as nat == NetmaskByte(p, i)
    ensures OnesOf(s) == p
  {
    if s != [] {
      var n := |s| - 1;
      var q := if p < 8 * n then p else 8 * n;
      forall i | 0 <= i < n
        ensures s[..n][i] as nat == NetmaskByte(q, i)
      {
      }
      NetmaskBits(s[..n], q);
      MaskBits(BYTE, p - q);
    }
  }

  function NetmaskByte(p: nat, i: nat): nat {
    BitMask(BYTE, if p < 8 * i then 0 else if p < 8 * i + 8 then p - 8 * i else 8)
  }
}
