/** The LUKS anti-forensic splitter: a key spread over stripes, and merged back, for any hash. */
module AfSplit {
  import opened Bytes

  /** Exclusive or of the low n bits. */
  function XorBits(n: nat, a: nat, b: nat): nat {
    if n == 0 then 0 else (a % 2 + b % 2) % 2 + 2 * XorBits(n - 1, a / 2, b / 2)
  }

  function Two(n: nat): nat {
    if n == 0 then 1 else 2 * Two(n - 1)
  }

  lemma TwoToTheEighth()
    ensures Two(8) == 256
  {
    assert Two(4) == 16;
  }

  lemma {:induction false} XorBitsBound(n: nat, a: nat, b: nat)
    ensures XorBits(n, a, b) < Two(n)
  {
    if n > 0 {
      XorBitsBound(n - 1, a / 2, b / 2);
    }
  }

  function Xor(a: byte, b: byte): byte {
    XorBitsBound(8, a, b);
    TwoToTheEighth();
    XorBits(8, a, b)
  }

  /** Of an n-bit number, exclusive or with the same bits twice changes nothing. */
  lemma {:induction false} XorTwice(n: nat, a: nat, b: nat)
    requires b < Two(n)
    ensures XorBits(n, a, XorBits(n, a, b)) == b
  {
    if n > 0 {
      hide XorBits;
      XorTwice(n - 1, a / 2, b / 2);
      var p, q, x := a % 2, b % 2, XorBits(n - 1, a / 2, b / 2);
      var bit := (p + q) % 2;
      Halves(bit, x);
      XorStep(n, a, b);
      XorStep(n, a, bit + 2 * x);
      ParityTwice(p, q);
    }
  }

  lemma ParityTwice(p: nat, q: nat)
    requires p < 2 && q < 2
    ensures (p + (p + q) % 2) % 2 == q
  {
  }

  lemma XorStep(n: nat, a: nat, b: nat)
    requires n > 0
    ensures XorBits(n, a, b) == (a % 2 + b % 2) % 2 + 2 * XorBits(n - 1, a / 2, b / 2)
  {
  }

  lemma Halves(bit: nat, x: nat)
    requires bit < 2
    ensures (bit + 2 * x) % 2 == bit && (bit + 2 * x) / 2 == x
  {
  }

  /** Exclusive or with the same byte twice gives the byte back. */
  lemma XorCancels(a: byte, b: byte)
    ensures Xor(a, Xor(a, b)) == b
  {
    TwoToTheEighth();
    XorTwice(8, a, b);
  }

  function XorSeq(a: seq<byte>, b: seq<byte>): (r: seq<byte>)
    requires |a| == |b|
    ensures |r| == |a|
  {
    seq(|a|, k requires 0 <= k < |a| => Xor(a[k], b[k]))
  }

  lemma XorSeqCancels(a: seq<byte>, b: seq<byte>)
    requires |a| == |b|
    ensures XorSeq(a, XorSeq(a, b)) == b
  {
    forall k | 0 <= k < |a|
      ensures XorSeq(a, XorSeq(a, b))[k] == b[k]
    {
      XorCancels(a[k], b[k]);
    }
  }

  /** A hash function, known only by the length of its digests. */
  datatype Hash = Hash(size: nat, digest: seq<byte> -> seq<byte>)

  ghost predicate Lawful(h: Hash) {
    h.size > 0 && forall x :: |h.digest(x)| == h.size
  }

  /** The bytes of block i: a full digest, or what is left of the data. */
  function Block(h: Hash, data: seq<byte>, off: nat): (b: seq<byte>)
    requires h.size > 0 && off <= |data|
    ensures |b| <= h.size && off + |b| <= |data| && (off < |data| ==> |b| > 0)
  {
    if off + h.size <= |data| then data[off..off + h.size] else data[off..]
  }

  /** A block's digest under its number, cut to the block's length. */
  ghost function Mixed(h: Hash, i: nat, block: seq<byte>): (r: seq<byte>)
    requires Lawful(h) && |block| <= h.size
    ensures |r| == |block|
  {
    h.digest(BE(4, i) + block)[..|block|]
  }

  /** Every block from number i on, mixed on its own. */
  ghost function DiffuseFrom(h: Hash, data: seq<byte>, i: nat, off: nat): (r: seq<byte>)
    requires Lawful(h) && off <= |data|
    ensures |r| == |data| - off
    decreases |data| - off
  {
    if off == |data| then [] else
    var b := Block(h, data, off);
    Mixed(h, i, b) + DiffuseFrom(h, data, i + 1, off + |b|)
  }

  /** The diffuser keeps the length, whether or not the last block is whole. */
  ghost function Diffuse(h: Hash, data: seq<byte>): (r: seq<byte>)
    requires Lawful(h)
    ensures |r| == |data|
  {
    DiffuseFrom(h, data, 0, 0)
  }

  /** Blocks before off are mixed, the rest is untouched. */
  ghost predicate Partly(h: Hash, data: seq<byte>, start: seq<byte>, i: nat, off: nat) {
    && Lawful(h) && |data| == |start| && off <= |data|
    && data[off..] == start[off..] && data[..off] + DiffuseFrom(h, start, i, off) == Diffuse(h, start)
  }

  lemma BlockMixed(h: Hash, data: seq<byte>, start: seq<byte>, i: nat, off: nat, n: nat)
    requires Partly(h, data, start, i, off) && off < |data| && n == |Block(h, start, off)|
    ensures data[off..off + n] == Block(h, start, off)
    ensures Partly(h, Splice(data, off, Mixed(h, i, Block(h, start, off))), start, i + 1, off + n)
  {
    hide Mixed, DiffuseFrom;
    var b := Block(h, start, off);
    var m, rest := Mixed(h, i, b), DiffuseFrom(h, start, i + 1, off + n);
    DiffuseStep(h, start, i, off);
    assert data[off..off + n] == data[off..][..n] && b == start[off..][..n];
    var next := Splice(data, off, m);
    assert next[..off + n] == data[..off] + m;
    assert data[..off] + (m + rest) == (data[..off] + m) + rest;
    assert next[off + n..] == data[off..][n..] && start[off + n..] == start[off..][n..];
  }

  /** One block mixed in place. */
  method MixBlock(h: Hash, data: array<byte>, ghost start: seq<byte>, i: nat, off: nat, n: nat)
    requires Partly(h, data[..], start, i, off) && off < data.Length && n == |Block(h, start, off)|
    modifies data
    ensures Partly(h, data[..], start, i + 1, off + n)
  {
    hide DiffuseFrom, Block;
    BlockMixed(h, data[..], start, i, off, n);
    var digest := h.digest(BE(4, i) + data[off..off + n]);
    Store(data, off, digest[..n]);
  }

  /** The diffuser's loop over full blocks, and the partial block behind them. */
  method DiffuseInPlace(h: Hash, data: array<byte>)
    requires Lawful(h)
    modifies data
    ensures data[..] == Diffuse(h, old(data[..]))
  {
    hide Mixed, DiffuseFrom, Times;
    ghost var start := data[..];
    var size := h.size;
    var full, rest := data.Length / size, data.Length % size;
    WholeAndRest(data.Length, size);
    var i: nat, off: nat := 0, 0;
    while i < full
      invariant 0 <= i <= full && off + Times(full - i, size) + rest == data.Length
      invariant Partly(h, data[..], start, i, off)
    {
      TimesStep(full - i - 1, size);
      MixBlock(h, data, start, i, off, size);
      i, off := i + 1, off + size;
    }
    TimesStep(0, size);
    if rest > 0 {
      MixBlock(h, data, start, full, off, rest);
      DiffuseEnd(h, start, full + 1);
    } else {
      DiffuseEnd(h, start, full);
    }
    assert data[..data.Length] == data[..];
  }

  lemma DiffuseStep(h: Hash, data: seq<byte>, i: nat, off: nat)
    requires Lawful(h) && off < |data|
    ensures DiffuseFrom(h, data, i, off) ==
            Mixed(h, i, Block(h, data, off)) + DiffuseFrom(h, data, i + 1, off + |Block(h, data, off)|)
  {
  }

  lemma DiffuseEnd(h: Hash, data: seq<byte>, i: nat)
    requires Lawful(h)
    ensures DiffuseFrom(h, data, i, |data|) == []
  {
  }

  lemma StripeInside(i: nat, stripes: nat, size: nat)
    requires i < stripes
    ensures Times(i, size) + size <= Times(stripes, size) && Times(i + 1, size) == Times(i, size) + size
  {
    TimesStep(i, size);
    MulMono(i + 1, stripes, size);
  }

  function Stripe(km: seq<byte>, size: nat, i: nat): (s: seq<byte>)
    requires Times(i, size) + size <= |km|
    ensures |s| == size
  {
    km[Times(i, size)..Times(i, size) + size]
  }

  /** The running value after the first n stripes. */
  ghost function Merged(h: Hash, km: seq<byte>, size: nat, n: nat): (d: seq<byte>)
    requires Lawful(h) && n >= 1 && Times(n, size) <= |km|
    ensures |d| == size
  {
    StripeInside(n - 1, n, size);
    if n == 1 then Stripe(km, size, 0)
    else XorSeq(Diffuse(h, Merged(h, km, size, n - 1)), Stripe(km, size, n - 1))
  }

  method XorInPlace(d: array<byte>, km: seq<byte>, off: nat)
    requires off + d.Length <= |km|
    modifies d
    ensures d[..] == XorSeq(old(d[..]), km[off..off + d.Length])
  {
    ghost var before := d[..];
    for j := 0 to d.Length
      invariant forall k :: 0 <= k < j ==> d[k] == Xor(before[k], km[off + k])
      invariant forall k :: j <= k < d.Length ==> d[k] == before[k]
    {
      d[j] := Xor(d[j], km[off + j]);
    }
  }

  /** Merges n stripes: diffuse, then exclusive or with the next one. */
  method Merge(h: Hash, km: seq<byte>, size: nat, n: nat) returns (key: seq<byte>)
    requires Lawful(h) && n >= 1 && Times(n, size) <= |km|
    ensures key == Merged(h, km, size, n)
  {
    hide Times, Diffuse, Lawful;
    StripeInside(0, n, size);
    TimesStep(0, size);
    var d := new byte[size](k requires 0 <= k < size => km[k]);
    assert d[..] == km[0..size];
    var i, off := 1, size;
    while i < n
      invariant 1 <= i <= n && off == Times(i, size) && Times(i, size) <= |km|
      invariant d[..] == Merged(h, km, size, i)
    {
      DiffuseInPlace(h, d);
      StripeInside(i, n, size);
      XorInPlace(d, km, off);
      i, off := i + 1, off + size;
    }
    key := d[..];
  }

  /** The stripe that makes the merge of all of them give the key. */
  ghost function LastStripe(h: Hash, key: seq<byte>, km: seq<byte>, stripes: nat): (s: seq<byte>)
    requires Lawful(h) && stripes >= 1 && |km| == Times(stripes, |key|)
    ensures |s| == |key|
  {
    var n := if stripes == 1 then 1 else stripes - 1;
    StripeInside(stripes - 1, stripes, |key|);
    XorSeq(Diffuse(h, Merged(h, km, |key|, n)), key)
  }

  ghost function SplitMaterial(h: Hash, key: seq<byte>, km: seq<byte>, stripes: nat): (r: seq<byte>)
    requires Lawful(h) && stripes >= 1 && |km| == Times(stripes, |key|)
    ensures |r| == |km|
  {
    StripeInside(stripes - 1, stripes, |key|);
    Splice(km, Times(stripes - 1, |key|), LastStripe(h, key, km, stripes))
  }

  /** Splits a key over key material whose stripes but the last hold random bytes. */
  method Split(h: Hash, key: seq<byte>, km: array<byte>, stripes: nat)
    requires Lawful(h) && stripes >= 1 && km.Length == Times(stripes, |key|)
    modifies km
    ensures km[..] == SplitMaterial(h, key, old(km[..]), stripes)
  {
    hide Times, Diffuse, Lawful, Merged;
    StripeInside(stripes - 1, stripes, |key|);
    var n := if stripes == 1 then 1 else stripes - 1;
    var merged := Merge(h, km[..], |key|, n);
    var d := new byte[|key|](k requires 0 <= k < |merged| => merged[k]);
    assert d[..] == merged;
    DiffuseInPlace(h, d);
    XorInPlace(d, key, 0);
    assert key[0..0 + |key|] == key;
    Store(km, Times(stripes - 1, |key|), d[..]);
  }

  /** The merge of n stripes looks at no stripe behind them. */
  lemma {:induction false} MergedPrefix(h: Hash, a: seq<byte>, b: seq<byte>, size: nat, n: nat)
    requires Lawful(h) && n >= 1 && Times(n, size) <= |a| && Times(n, size) <= |b|
    requires a[..Times(n, size)] == b[..Times(n, size)]
    ensures Merged(h, a, size, n) == Merged(h, b, size, n)
  {
    hide Times, Diffuse, Lawful;
    StripeInside(n - 1, n, size);
    var end := Times(n, size);
    SameSlice(a, b, end, Times(n - 1, size), size);
    if n > 1 {
      SameSlice(a, b, end, 0, Times(n - 1, size));
      MergedPrefix(h, a, b, size, n - 1);
    } else {
      TimesStep(0, size);
    }
  }

  lemma SameSlice(a: seq<byte>, b: seq<byte>, end: nat, off: nat, n: nat)
    requires end <= |a| && end <= |b| && a[..end] == b[..end] && off + n <= end
    ensures a[off..off + n] == b[off..off + n]
  {
    assert a[off..off + n] == a[..end][off..off + n] && b[off..off + n] == b[..end][off..off + n];
  }

  /** Merging what was split gives the key back, for two stripes or more, whatever the hash and the random bytes. */
  lemma MergeOfSplit(h: Hash, key: seq<byte>, km: seq<byte>, stripes: nat)
    requires Lawful(h) && stripes >= 2 && |km| == Times(stripes, |key|)
    ensures Merged(h, SplitMaterial(h, key, km, stripes), |key|, stripes) == key
  {
    hide Times, Diffuse, Lawful, Merged, Splice;
    var size, split := |key|, SplitMaterial(h, key, km, stripes);
    StripeInside(stripes - 1, stripes, size);
    var off := Times(stripes - 1, size);
    assert split[..off] == km[..off];
    MergedPrefix(h, split, km, size, stripes - 1);
    var d := Diffuse(h, Merged(h, km, size, stripes - 1));
    assert Stripe(split, size, stripes - 1) == XorSeq(d, key);
    MergedStep(h, split, size, stripes);
    XorSeqCancels(d, key);
  }

  lemma MergedStep(h: Hash, km: seq<byte>, size: nat, n: nat)
    requires Lawful(h) && n >= 2 && Times(n, size) <= |km|
    ensures Times(n - 1, size) + size == Times(n, size)
    ensures Merged(h, km, size, n) == XorSeq(Diffuse(h, Merged(h, km, size, n - 1)), Stripe(km, size, n - 1))
  {
    hide Times, Diffuse, Lawful;
    StripeInside(n - 1, n, size);
  }

  lemma {:induction false} XorFixed(n: nat, a: nat, b: nat)
    requires a < Two(n) && b < Two(n)
    ensures XorBits(n, a, b) == b <==> a == 0
  {
    if n > 0 {
      hide XorBits;
      XorFixed(n - 1, a / 2, b / 2);
      XorStep(n, a, b);
    }
  }

  /** One stripe is not split at all: the merge gives the key only if the diffuser maps the stripe to zeros. */
  lemma SingleStripe(h: Hash, key: seq<byte>, km: seq<byte>)
    requires Lawful(h) && |km| == |key| == Times(1, |key|)
    ensures Merged(h, SplitMaterial(h, key, km, 1), |key|, 1) == key <==>
            forall k :: 0 <= k < |key| ==> Diffuse(h, km)[k] == 0
  {
    hide Diffuse, Lawful;
    var d := Diffuse(h, km);
    assert Merged(h, km, |key|, 1) == km;
    assert Merged(h, SplitMaterial(h, key, km, 1), |key|, 1) == XorSeq(d, key);
    forall k | 0 <= k < |key|
      ensures XorSeq(d, key)[k] == key[k] <==> d[k] == 0
    {
      TwoToTheEighth();
      XorFixed(8, d[k], key[k]);
    }
    assert XorSeq(d, key) == key <==> forall k :: 0 <= k < |key| ==> XorSeq(d, key)[k] == key[k];
  }

  /** A one-byte key under a hash of ones does not come back from a single stripe. */
  lemma SingleStripeLosesKey()
    ensures var h, key := Hash(1, (x: seq<byte>) => [1]), [0];
            Lawful(h) && |key| == Times(1, |key|) && Merged(h, SplitMaterial(h, key, key, 1), |key|, 1) != key
  {
    var h, key := Hash(1, (x: seq<byte>) => [1]), [0];
    assert Diffuse(h, key)[0] == 1;
    SingleStripe(h, key, key);
  }

  // ----- byte by byte -----

  lemma {:induction false} DiffusedByte(h: Hash, data: seq<byte>, i: nat, off: nat, p: nat)
    requires Lawful(h) && off == Times(i, h.size) && off <= p < |data|
    ensures var start := Times(p / h.size, h.size);
            && start <= p < start + h.size
            && DiffuseFrom(h, data, i, off)[p - off] ==
               h.digest(BE(4, p / h.size) + Block(h, data, start))[p - start]
    decreases |data| - off
  {
    hide Times, BE;
    WholeAndRest(p, h.size);
    var b := Block(h, data, off);
    TimesStep(i, h.size);
    if p < off + |b| {
      QuotientIs(p, i, h.size, p - off);
      assert DiffuseFrom(h, data, i, off)[p - off] == Mixed(h, i, b)[p - off];
    } else {
      DiffusedByte(h, data, i + 1, off + |b|, p);
      DiffuseStep(h, data, i, off);
    }
  }

  /** Byte p of the diffused data: the digest of its block, under the block's number with the high byte first. */
  lemma DiffuseByte(h: Hash, data: seq<byte>, p: nat)
    requires Lawful(h) && p < |data|
    ensures var n, rest := p / h.size, p % h.size;
            && p - rest + h.size >= p
            && Diffuse(h, data)[p] ==
               h.digest([n / 16777216 % 256, n / 65536 % 256, n / 256 % 256, n % 256]
                 + data[p - rest..if p - rest + h.size <= |data| then p - rest + h.size else |data|])[rest]
  {
    hide Times, BE, DiffuseFrom;
    TimesStep(0, h.size);
    DiffusedByte(h, data, 0, 0, p);
    WholeAndRest(p, h.size);
    NumberBytes(p / h.size);
    var start := p - p % h.size;
    assert Times(p / h.size, h.size) == start;
    assert Block(h, data, start) == data[start..if start + h.size <= |data| then start + h.size else |data|];
  }

  lemma NumberBytes(n: nat)
    ensures BE(4, n) == [n / 16777216 % 256, n / 65536 % 256, n / 256 % 256, n % 256]
  {
    assert BE(1, n / 16777216) == [n / 16777216 % 256];
    assert BE(2, n / 65536) == BE(1, n / 16777216) + [n / 65536 % 256];
    assert BE(3, n / 256) == BE(2, n / 65536) + [n / 256 % 256];
  }

  /** Three stripes, written out: each running value is diffused before the next stripe comes in. */
  lemma ThreeStripes(h: Hash, a: seq<byte>, b: seq<byte>, c: seq<byte>)
    requires Lawful(h) && |a| == |b| == |c|
    ensures Times(3, |a|) <= |a + b + c|
    ensures Merged(h, a + b + c, |a|, 3) == XorSeq(Diffuse(h, XorSeq(Diffuse(h, a), b)), c)
  {
    hide Diffuse, Lawful, XorSeq;
    var km, n := a + b + c, |a|;
    assert Stripe(km, n, 0) == a && Stripe(km, n, 1) == b && Stripe(km, n, 2) == c;
    assert Merged(h, km, n, 1) == a;
    assert Merged(h, km, n, 2) == XorSeq(Diffuse(h, a), b);
  }

  function Bit(a: nat, k: nat): nat {
    if k == 0 then a % 2 else Bit(a / 2, k - 1)
  }

  /** Bit k of an exclusive or is the parity of the two bits. */
  lemma {:induction false} XorBit(n: nat, a: nat, b: nat, k: nat)
    requires k < n
    ensures Bit(XorBits(n, a, b), k) == (Bit(a, k) + Bit(b, k)) % 2
  {
    hide XorBits;
    XorStep(n, a, b);
    Halves((a % 2 + b % 2) % 2, XorBits(n - 1, a / 2, b / 2));
    if k > 0 {
      XorBit(n - 1, a / 2, b / 2, k - 1);
    }
  }
}
