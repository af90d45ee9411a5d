/** Bytes, fixed-width integers in both byte orders, and in-place patches of a byte buffer. */
module Bytes {

  type byte = x: int | 0 <= x < 256

  const U16: nat := 0x1_0000
  const U32: nat := 0x1_0000_0000
  const U64: nat := 0x1_0000_0000_0000_0000

  /** 256 to the power n: the number of values an n-byte field can hold. */
  function Pow256(n: nat): (p: nat)
    ensures p >= 1
  {
    if n == 0 then 1 else 256 * Pow256(n - 1)
  }

  lemma WidthLimits()
    ensures Pow256(1) == 256 && Pow256(2) == U16 && Pow256(4) == U32 && Pow256(8) == U64
  {
    assert Pow256(3) == 0x100_0000;
    assert Pow256(5) == 0x100_0000_0000;
    assert Pow256(6) == 0x1_0000_0000_0000;
    assert Pow256(7) == 0x100_0000_0000_0000;
  }

  /** The low n bytes of v, least significant first. */
  function LE(n: nat, v: nat): (s: seq<byte>)
    ensures |s| == n
  {
    if n == 0 then [] else [v % 256] + LE(n - 1, v / 256)
  }

  function FromLE(s: seq<byte>): nat {
    if s == [] then 0 else s[0] + 256 * FromLE(s[1..])
  }

  lemma {:induction false} LERoundTrip(n: nat, v: nat)
    requires v < Pow256(n)
    ensures FromLE(LE(n, v)) == v
  {
    if n > 0 {
      LERoundTrip(n - 1, v / 256);
      assert LE(n, v)[1..] == LE(n - 1, v / 256);
    }
  }

  /** The low n bytes of v, most significant first. */
  function BE(n: nat, v: nat): (s: seq<byte>)
    ensures |s| == n
  {
    if n == 0 then [] else BE(n - 1, v / 256) + [v % 256]
  }

  function FromBE(s: seq<byte>): nat {
    if s == [] then 0 else 256 * FromBE(s[..|s| - 1]) + s[|s| - 1]
  }

  lemma {:induction false} BERoundTrip(n: nat, v: nat)
    requires v < Pow256(n)
    ensures FromBE(BE(n, v)) == v
  {
    if n > 0 {
      BERoundTrip(n - 1, v / 256);
      assert BE(n, v)[..n - 1] == BE(n - 1, v / 256);
    }
  }

  /** Quotient and remainder are what they are by definition. */
  lemma DivModUnique(q: nat, d: nat, x: nat)
    requires x < d
    ensures (q * d + x) / d == q && (q * d + x) % d == x
  {
    var k, r := (q * d + x) / d, (q * d + x) % d;
    var gap := q - k;
    assert gap * d == r - x;
    assert gap >= 1 ==> gap * d >= d;
    assert gap <= -1 ==> gap * d + d <= 0;
  }

  lemma MulAssoc(a: int, b: int, c: int)
    ensures a * b * c == a * (b * c)
  {
  }

  lemma MulDistrib(a: int, b: int, c: int)
    ensures (a + b) * c == a * c + b * c
  {
  }

  lemma MulMono(a: nat, b: nat, p: nat)
    requires a <= b
    ensures a * p <= b * p
  {
    var gap: nat := b - a;
    assert b * p == a * p + gap * p;
  }

  lemma BelowProduct(c: nat, p: nat, n: nat)
    requires p > 0 && c / p < n
    ensures c < n * p
  {
    var q := c / p;
    assert c == q * p + c % p;
    MulMono(q + 1, n, p);
    assert (q + 1) * p == q * p + p;
  }

  /** A product under a name of its own, so that proofs can leave it alone. */
  function Times(n: nat, size: nat): nat {
    n * size
  }

  lemma TimesStep(n: nat, size: nat)
    ensures Times(n + 1, size) == Times(n, size) + size && Times(0, size) == 0
  {
  }

  lemma TimesMono(m: nat, n: nat, size: nat)
    requires m <= n
    ensures Times(m, size) <= Times(n, size)
  {
    MulMono(m, n, size);
  }

  lemma WholeAndRest(n: nat, size: nat)
    requires size > 0
    ensures Times(n / size, size) + n % size == n
  {
  }

  lemma TimesAdd(m: nat, n: nat, size: nat)
    ensures Times(m + n, size) == Times(m, size) + Times(n, size)
  {
    MulDistrib(m, n, size);
  }

  /** The quotient is the one number that leaves a remainder below the divisor. */
  lemma QuotientIs(n: nat, q: nat, size: nat, rest: nat)
    requires rest < size && n == Times(q, size) + rest
    ensures n / size == q && n % size == rest
  {
    DivModUnique(q, size, rest);
  }

  lemma DivMono(a: nat, b: nat, d: nat)
    requires d > 0 && a <= b
    ensures a / d <= b / d
  {
    var q, m := a / d, b / d;
    assert a == q * d + a % d && b == m * d + b % d;
    if q > m {
      MulMono(m + 1, q, d);
      MulDistrib(m, 1, d);
    }
  }

  lemma LowBytes(v: nat, p: nat)
    requires p > 0
    ensures v % (256 * p) == 256 * (v / 256 % p) + v % 256
  {
    var u := v / 256;
    var q, r := u / p, u % p;
    assert u == q * p + r;
    assert q * (256 * p) == 256 * (q * p);
    DivModUnique(q, 256 * p, 256 * r + v % 256);
  }

  /** Storing a value too wide for its field keeps its low bytes. */
  lemma {:induction false} BEKeepsLowBytes(n: nat, v: nat)
    ensures FromBE(BE(n, v)) == v % Pow256(n)
  {
    if n > 0 {
      BEKeepsLowBytes(n - 1, v / 256);
      assert BE(n, v)[..n - 1] == BE(n - 1, v / 256);
      LowBytes(v, Pow256(n - 1));
    }
  }

  lemma {:induction false} BEInverse(s: seq<byte>)
    ensures FromBE(s) < Pow256(|s|)
    ensures BE(|s|, FromBE(s)) == s
  {
    if s != [] {
      BEInverse(s[..|s| - 1]);
    }
  }

  /** Byte j of a big-endian number. */
  lemma {:induction false} ByteOfNumber(s: seq<byte>, j: nat)
    requires j < |s|
    ensures s[j] == FromBE(s) / Pow256(|s| - 1 - j) % 256
  {
    hide FromBE, Pow256;
    var t := s[..|s| - 1];
    LastByte(s);
    LowByte(FromBE(t), s[|s| - 1]);
    NextPower(0);
    if j < |s| - 1 {
      ByteOfNumber(t, j);
      DropByte(FromBE(t), s[|s| - 1], Pow256(|s| - 2 - j));
      NextPower(|s| - 2 - j);
    }
  }

  lemma LastByte(s: seq<byte>)
    requires s != []
    ensures FromBE(s) == 256 * FromBE(s[..|s| - 1]) + s[|s| - 1]
  {
  }

  lemma LowByte(high: nat, low: byte)
    ensures (256 * high + low) / 1 % 256 == low
  {
  }

  lemma NextPower(n: nat)
    ensures Pow256(n + 1) == 256 * Pow256(n) && Pow256(0) == 1
  {
  }

  lemma DropByte(high: nat, low: byte, p: nat)
    requires p > 0
    ensures (256 * high + low) / (256 * p) == high / p
  {
    var q, rest := high / p, high % p;
    assert high == q * p + rest;
    assert 256 * high + low == q * (256 * p) + (256 * rest + low);
    DivModUnique(q, 256 * p, 256 * rest + low);
  }

  /** Byte j of a number stored with its high byte first. */
  lemma HighFirst(n: nat, v: nat, j: nat)
    requires j < n && v < Pow256(n)
    ensures BE(n, v)[j] == v / Pow256(n - 1 - j) % 256
  {
    hide BE, FromBE, Pow256;
    BERoundTrip(n, v);
    ByteOfNumber(BE(n, v), j);
  }

  /** Byte j of a number stored with its low byte first. */
  lemma {:induction false} LowFirst(n: nat, v: nat, j: nat)
    requires j < n
    ensures LE(n, v)[j] == v / Pow256(j) % 256
  {
    hide LE, Pow256;
    FirstByte(n, v);
    NextPower(0);
    if j > 0 {
      LowFirst(n - 1, v / 256, j - 1);
      NextPower(j - 1);
      DropByte(v / 256, v % 256, Pow256(j - 1));
    }
  }

  lemma NothingOver(p: nat)
    requires p > 0
    ensures 0 / p == 0
  {
  }

  lemma FirstByte(n: nat, v: nat)
    requires n > 0
    ensures LE(n, v) == [v % 256] + LE(n - 1, v / 256) && v / 1 == v && v == 256 * (v / 256) + v % 256
  {
  }

  /** s with the bytes from off on overwritten by t. */
  function Splice(s: seq<byte>, off: nat, t: seq<byte>): (r: seq<byte>)
    requires off + |t| <= |s|
    ensures |r| == |s|
    ensures r[off..off + |t|] == t
    ensures forall i :: 0 <= i < off || off + |t| <= i < |s| ==> r[i] == s[i]
  {
    s[..off] + t + s[off + |t|..]
  }

  /** A window that a patch does not meet keeps its bytes. */
  lemma SpliceElsewhere(s: seq<byte>, off: nat, t: seq<byte>, a: nat, n: nat)
    requires off + |t| <= |s| && a + n <= |s|
    requires a + n <= off || off + |t| <= a
    ensures Splice(s, off, t)[a..a + n] == s[a..a + n]
  {
  }

  function GetLE(s: seq<byte>, off: nat, n: nat): nat
    requires off + n <= |s|
  {
    FromLE(s[off..off + n])
  }

  function GetBE(s: seq<byte>, off: nat, n: nat): nat
    requires off + n <= |s|
  {
    FromBE(s[off..off + n])
  }

  lemma GetLEPut(s: seq<byte>, off: nat, n: nat, v: nat)
    requires off + n <= |s| && v < Pow256(n)
    ensures GetLE(Splice(s, off, LE(n, v)), off, n) == v
  {
    LERoundTrip(n, v);
  }

  lemma GetBEPut(s: seq<byte>, off: nat, n: nat, v: nat)
    requires off + n <= |s| && v < Pow256(n)
    ensures GetBE(Splice(s, off, BE(n, v)), off, n) == v
  {
    BERoundTrip(n, v);
  }

  /** n bytes at off hold v, big-endian. */
  predicate Holds(s: seq<byte>, off: nat, n: nat, v: nat) {
    off + n <= |s| && s[off..off + n] == BE(n, v)
  }

  /** A field outside what has changed is still there. */
  lemma HoldsStill(a: seq<byte>, b: seq<byte>, off: nat, n: nat, v: nat)
    requires Holds(a, off, n, v) && off + n <= |b| && forall p :: off <= p < off + n ==> b[p] == a[p]
    ensures Holds(b, off, n, v)
  {
    hide BE;
    assert b[off..off + n] == a[off..off + n];
  }

  lemma FieldRead(s: seq<byte>, off: nat, n: nat, v: nat)
    requires Holds(s, off, n, v) && v < Pow256(n)
    ensures GetBE(s, off, n) == v
  {
    BERoundTrip(n, v);
  }

  lemma SubSlice(s: seq<byte>, off: nat, b: seq<byte>, i: nat, n: nat)
    requires off + |b| <= |s| && s[off..off + |b|] == b && i + n <= |b|
    ensures s[off + i..off + i + n] == b[i..i + n]
  {
    var x, y := s[off + i..off + i + n], b[i..i + n];
    forall j | 0 <= j < n
      ensures x[j] == y[j]
    {
      assert b[i + j] == s[off..off + |b|][i + j];
    }
  }

  lemma PartRead(s: seq<byte>, off: nat, b: seq<byte>, i: nat, n: nat, v: nat)
    requires off + |b| <= |s| && s[off..off + |b|] == b && i + n <= |b| && b[i..i + n] == BE(n, v) && v < Pow256(n)
    ensures GetBE(s, off + i, n) == v
  {
    SubSlice(s, off, b, i, n);
    BERoundTrip(n, v);
  }

  /** Overwrites part of a buffer in place. */
  method Store(buffer: array<byte>, at: nat, s: seq<byte>)
    requires at + |s| <= buffer.Length
    modifies buffer
    ensures buffer[..] == Splice(old(buffer[..]), at, s)
  {
    ghost var before := buffer[..];
    for k := 0 to |s|
      invariant forall p :: 0 <= p < buffer.Length ==> buffer[p] == if at <= p < at + k then s[p - at] else before[p]
    {
      buffer[at + k] := s[k];
    }
  }

  /** Overwrites part of a buffer in place, stated field by field. */
  method Put(buffer: array<byte>, off: nat, s: seq<byte>)
    requires off + |s| <= buffer.Length
    modifies buffer
    ensures buffer[off..off + |s|] == s
    ensures forall p :: 0 <= p < off || off + |s| <= p < buffer.Length ==> buffer[p] == old(buffer[p])
  {
    ghost var before := buffer[..];
    Store(buffer, off, s);
    assert forall p :: 0 <= p < buffer.Length ==> buffer[p] == Splice(before, off, s)[p];
  }

  /** Packs a big-endian field in place. */
  method PackBE(buffer: array<byte>, off: nat, n: nat, v: nat)
    requires off + n <= buffer.Length
    modifies buffer
    ensures buffer[off..off + n] == BE(n, v)
    ensures forall p :: 0 <= p < off || off + n <= p < buffer.Length ==> buffer[p] == old(buffer[p])
  {
    Put(buffer, off, BE(n, v));
  }
}
