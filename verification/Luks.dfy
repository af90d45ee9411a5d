/** A LUKS v1 container built around a random key, and the reader that unlocks it. */
module Luks {
  import opened Bytes
  import opened Options
  import opened AfSplit

  const SECTOR: nat := 512

  /** A sector cipher under a key and a tweak, known only by its inverse law. */
  datatype Cipher = Cipher(encrypt: (seq<byte>, seq<byte>, seq<byte>) -> seq<byte>,
                           decrypt: (seq<byte>, seq<byte>, seq<byte>) -> seq<byte>)

  ghost predicate Inverse(c: Cipher) {
    forall k, t, x :: |c.encrypt(k, t, x)| == |x| && c.decrypt(k, t, c.encrypt(k, t, x)) == x
  }

  /** plain64: the sector number, little-endian in sixteen bytes. */
  function Tweak(sector: nat): seq<byte> {
    LE(8, sector) + LE(8, 0)
  }

  /** The first n sectors, each passed through the cipher under its own tweak. */
  function Area(f: (seq<byte>, seq<byte>, seq<byte>) -> seq<byte>, key: seq<byte>, data: seq<byte>, size: nat,
                first: nat, n: nat): seq<byte>
    requires Times(n, size) <= |data|
  {
    if n == 0 then [] else
    StripeInside(n - 1, n, size);
    Area(f, key, data, size, first, n - 1) + f(key, Tweak(first + n - 1), Stripe(data, size, n - 1))
  }

  function Whole(n: nat, size: nat): (k: nat)
    requires size > 0
    ensures Times(k, size) <= n
  {
    WholeAndRest(n, size);
    n / size
  }

  /** Encrypts or decrypts sector by sector; a partial sector at the end is dropped. */
  method CipherArea(f: (seq<byte>, seq<byte>, seq<byte>) -> seq<byte>, key: seq<byte>, data: seq<byte>, size: nat,
                    first: nat)
    returns (r: seq<byte>)
    requires size > 0
    ensures r == Area(f, key, data, size, first, Whole(|data|, size))
  {
    hide Times, Tweak;
    r := [];
    var n := Whole(|data|, size);
    var off := 0;
    TimesStep(0, size);
    for i := 0 to n
      invariant off == Times(i, size) <= |data|
      invariant r == Area(f, key, data, size, first, i)
    {
      StripeInside(i, n, size);
      r := r + f(key, Tweak(first + i), data[off..off + size]);
      off := off + size;
    }
  }

  lemma {:induction false} AreaLength(c: Cipher, key: seq<byte>, data: seq<byte>, size: nat, first: nat, n: nat)
    requires Inverse(c) && Times(n, size) <= |data|
    ensures |Area(c.encrypt, key, data, size, first, n)| == Times(n, size)
  {
    hide Times, Tweak;
    if n > 0 {
      StripeInside(n - 1, n, size);
      AreaLength(c, key, data, size, first, n - 1);
    } else {
      TimesStep(0, size);
    }
  }

  /** Sectors before the n-th are read the same from any longer data. */
  lemma {:induction false} AreaPrefix(f: (seq<byte>, seq<byte>, seq<byte>) -> seq<byte>, key: seq<byte>, a: seq<byte>,
                                      b: seq<byte>, size: nat, first: nat, n: nat)
    requires Times(n, size) <= |a| <= |b| && b[..|a|] == a
    ensures Area(f, key, a, size, first, n) == Area(f, key, b, size, first, n)
  {
    hide Times, Tweak;
    if n > 0 {
      StripeInside(n - 1, n, size);
      SameSlice(a, b, |a|, Times(n - 1, size), size);
      AreaPrefix(f, key, a, b, size, first, n - 1);
    }
  }

  /** Decrypting what was encrypted gives the whole sectors back. */
  lemma {:induction false} AreaRoundTrip(c: Cipher, key: seq<byte>, data: seq<byte>, size: nat, first: nat, n: nat)
    requires Inverse(c) && Times(n, size) <= |data|
    ensures |Area(c.encrypt, key, data, size, first, n)| == Times(n, size)
    ensures Area(c.decrypt, key, Area(c.encrypt, key, data, size, first, n), size, first, n) == data[..Times(n, size)]
  {
    hide Times, Tweak;
    AreaLength(c, key, data, size, first, n);
    if n > 0 {
      StripeInside(n - 1, n, size);
      AreaLength(c, key, data, size, first, n - 1);
      AreaRoundTrip(c, key, data, size, first, n - 1);
      var head, enc := Area(c.encrypt, key, data, size, first, n - 1), Area(c.encrypt, key, data, size, first, n);
      var t, plain := Tweak(first + n - 1), Stripe(data, size, n - 1);
      assert enc == head + c.encrypt(key, t, plain);
      assert Stripe(enc, size, n - 1) == c.encrypt(key, t, plain);
      AreaPrefix(c.decrypt, key, head, enc, size, first, n - 1);
      assert data[..Times(n, size)] == data[..Times(n - 1, size)] + plain;
    } else {
      TimesStep(0, size);
    }
  }

  /** Nothing is lost exactly when the data is a whole number of sectors. */
  lemma NothingLost(c: Cipher, key: seq<byte>, data: seq<byte>, size: nat, first: nat)
    requires Inverse(c) && size > 0
    ensures var enc := Area(c.encrypt, key, data, size, first, Whole(|data|, size));
            Area(c.decrypt, key, enc, size, first, Whole(|enc|, size)) == data <==> |data| % size == 0
  {
    hide Times, Tweak;
    var n := Whole(|data|, size);
    WholeAndRest(|data|, size);
    AreaRoundTrip(c, key, data, size, first, n);
    WholeOfProduct(n, size);
    assert data[..|data|] == data;
  }

  lemma WholeOfProduct(n: nat, size: nat)
    requires size > 0
    ensures Whole(Times(n, size), size) == n
  {
    DivModUnique(n, size, 0);
  }

  /** A tweak is sixteen bytes: the sector number with its low byte first, then zeros. */
  lemma TweakIs(sector: nat, j: nat)
    requires j < 16
    ensures |Tweak(sector)| == 16
    ensures Tweak(sector)[j] == if j < 8 then sector / Pow256(j) % 256 else 0
  {
    hide LE, Pow256;
    if j < 8 {
      LowFirst(8, sector, j);
    } else {
      LowFirst(8, 0, j - 8);
      NothingOver(Pow256(j - 8));
    }
  }

  /** Different sectors have different tweaks. */
  lemma TweaksDiffer(s: nat, t: nat)
    requires s < U64 && t < U64 && Tweak(s) == Tweak(t)
    ensures s == t
  {
    hide LE;
    assert Tweak(s)[..8] == LE(8, s) && Tweak(t)[..8] == LE(8, t);
    WidthLimits();
    LERoundTrip(8, s);
    LERoundTrip(8, t);
  }
}
