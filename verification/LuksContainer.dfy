/** The container file: header, key slots, encrypted key material and payload. */
module LuksContainer {
  import opened Bytes
  import opened Options
  import opened AfSplit
  import opened Luks

  const MAGIC: seq<byte> := [0x4C, 0x55, 0x4B, 0x53, 0xBA, 0xBE]
  const CIPHER_NAME: seq<byte> := [0x61, 0x65, 0x73]                                                     // aes
  const CIPHER_MODE: seq<byte> := [0x78, 0x74, 0x73, 0x2D, 0x70, 0x6C, 0x61, 0x69, 0x6E, 0x36, 0x34]     // xts-plain64
  const HASH_SPEC: seq<byte> := [0x73, 0x68, 0x61, 0x32, 0x35, 0x36]                                     // sha256
  const ACTIVE: nat := 0x00AC_71F3
  const DEAD: nat := 0x0000_DEAD
  const KEY_BYTES: nat := 64
  const STRIPES: nat := 4000
  const ITERATIONS: nat := 1000
  const PAYLOAD_SECTORS: nat := 4096
  const MATERIAL_SECTOR: nat := 8
  const MATERIAL_BYTES: nat := 256000
  const HEADER: nat := 2097152

  /** Hash, key derivation and cipher. */
  datatype Suite = Suite(hash: Hash, kdf: (seq<byte>, seq<byte>, nat, nat) -> seq<byte>, cipher: Cipher)

  ghost predicate Sound(s: Suite) {
    Lawful(s.hash) && Inverse(s.cipher) && forall p, salt, i, n: nat :: |s.kdf(p, salt, i, n)| == n
  }

  /** The random inputs and the content. */
  datatype Params = Params(master: seq<byte>, digestSalt: seq<byte>, slotSalt: seq<byte>, random: seq<byte>,
                           uuid: seq<byte>, passphrase: seq<byte>, inner: seq<byte>)
  {
    predicate Valid() {
      && |master| == KEY_BYTES && |digestSalt| == 32 && |slotSalt| == 32 && |uuid| == 36
      && |random| == MATERIAL_BYTES == Times(STRIPES, KEY_BYTES)
    }
  }

  function Padded(name: seq<byte>, n: nat): (s: seq<byte>)
    requires |name| <= n
    ensures |s| == n
  {
    name + seq(n - |name|, _ => 0)
  }

  function Digest(s: Suite, p: Params): seq<byte> {
    s.kdf(p.master, p.digestSalt, ITERATIONS, 20)
  }

  function SlotKey(s: Suite, p: Params): seq<byte> {
    s.kdf(p.passphrase, p.slotSalt, ITERATIONS, KEY_BYTES)
  }

  /** The split key, encrypted under the passphrase. */
  ghost function Material(s: Suite, p: Params): seq<byte>
    requires Sound(s) && p.Valid()
  {
    var split := SplitMaterial(s.hash, p.master, p.random, STRIPES);
    Area(s.cipher.encrypt, SlotKey(s, p), split, SECTOR, 0, Whole(|split|, SECTOR))
  }

  function Payload(s: Suite, p: Params): seq<byte> {
    Area(s.cipher.encrypt, p.master, p.inner, SECTOR, 0, Whole(|p.inner|, SECTOR))
  }

  predicate Names(h: seq<byte>) {
    && |h| >= 592 && h[0..6] == MAGIC && Holds(h, 6, 2, 1)
    && h[8..40] == Padded(CIPHER_NAME, 32) && h[40..72] == Padded(CIPHER_MODE, 32)
    && h[72..104] == Padded(HASH_SPEC, 32)
  }

  predicate Numbers(h: seq<byte>, s: Suite, p: Params) {
    && |h| >= 592 && Holds(h, 104, 4, PAYLOAD_SECTORS) && Holds(h, 108, 4, KEY_BYTES)
    && h[112..132] == Digest(s, p) && h[132..164] == p.digestSalt && Holds(h, 164, 4, ITERATIONS)
    && h[168..204] == p.uuid
  }

  predicate Slots(h: seq<byte>, p: Params) {
    && |h| >= 592 && Holds(h, 208, 4, ACTIVE) && Holds(h, 212, 4, ITERATIONS) && h[216..248] == p.slotSalt
    && Holds(h, 248, 4, MATERIAL_SECTOR) && Holds(h, 252, 4, STRIPES)
    && forall i :: 1 <= i < 8 ==> Holds(h, 208 + 48 * i, 4, DEAD)
  }

  ghost predicate IsHeader(h: seq<byte>, s: Suite, p: Params) {
    && |h| == HEADER && Names(h) && Numbers(h, s, p) && Slots(h, p)
    && Sound(s) && p.Valid() && 4096 + |Material(s, p)| <= HEADER && h[4096..4096 + |Material(s, p)|] == Material(s, p)
  }

  method WriteNames(h: array<byte>)
    requires h.Length >= 592 && forall k :: 0 <= k < 104 ==> h[k] == 0
    modifies h
    ensures Names(h[..])
    ensures forall k :: 104 <= k < h.Length ==> h[k] == old(h[k])
  {
    hide BE;
    Put(h, 0, MAGIC);
    PackBE(h, 6, 2, 1);
    Put(h, 8, CIPHER_NAME);
    assert h[8..40] == Padded(CIPHER_NAME, 32);
    Put(h, 40, CIPHER_MODE);
    assert h[40..72] == Padded(CIPHER_MODE, 32);
    Put(h, 72, HASH_SPEC);
    assert h[72..104] == Padded(HASH_SPEC, 32);
  }

  method WriteNumbers(h: array<byte>, s: Suite, p: Params)
    requires h.Length >= 592 && Sound(s) && p.Valid()
    modifies h
    ensures Numbers(h[..], s, p)
    ensures forall k :: 0 <= k < 104 || 204 <= k < h.Length ==> h[k] == old(h[k])
  {
    hide BE;
    PackBE(h, 104, 4, PAYLOAD_SECTORS);
    PackBE(h, 108, 4, KEY_BYTES);
    Put(h, 112, s.kdf(p.master, p.digestSalt, ITERATIONS, 20));
    Put(h, 132, p.digestSalt);
    PackBE(h, 164, 4, ITERATIONS);
    Put(h, 168, p.uuid);
  }

  method WriteActiveSlot(h: array<byte>, p: Params)
    requires h.Length >= 592 && p.Valid()
    modifies h
    ensures h[208..212] == BE(4, ACTIVE) && h[212..216] == BE(4, ITERATIONS) && h[216..248] == p.slotSalt
    ensures h[248..252] == BE(4, MATERIAL_SECTOR) && h[252..256] == BE(4, STRIPES)
    ensures forall k :: 0 <= k < 208 || 256 <= k < h.Length ==> h[k] == old(h[k])
  {
    hide BE;
    PackBE(h, 208, 4, ACTIVE);
    PackBE(h, 212, 4, ITERATIONS);
    Put(h, 216, p.slotSalt);
    PackBE(h, 248, 4, MATERIAL_SECTOR);
    PackBE(h, 252, 4, STRIPES);
  }

  method WriteDeadSlots(h: array<byte>)
    requires h.Length >= 592
    modifies h
    ensures forall i :: 1 <= i < 8 ==> Holds(h[..], 208 + 48 * i, 4, DEAD)
    ensures forall k :: 0 <= k < 256 || 592 <= k < h.Length ==> h[k] == old(h[k])
  {
    hide BE;
    for i := 1 to 8
      invariant forall k :: 1 <= k < i ==> Holds(h[..], 208 + 48 * k, 4, DEAD)
      invariant forall k :: 0 <= k < 256 || 592 <= k < h.Length ==> h[k] == old(h[k])
    {
      ghost var before := h[..];
      PackBE(h, 208 + 48 * i, 4, DEAD);
      forall k | 1 <= k < i
        ensures Holds(h[..], 208 + 48 * k, 4, DEAD)
      {
        assert Holds(before, 208 + 48 * k, 4, DEAD);
        assert h[208 + 48 * k..208 + 48 * k + 4] == before[208 + 48 * k..208 + 48 * k + 4];
      }
    }
  }

  method WriteSlots(h: array<byte>, p: Params)
    requires h.Length >= 592 && p.Valid()
    modifies h
    ensures Slots(h[..], p)
    ensures forall k :: 0 <= k < 208 || 592 <= k < h.Length ==> h[k] == old(h[k])
  {
    hide BE;
    WriteActiveSlot(h, p);
    ghost var slot := h[208..256];
    WriteDeadSlots(h);
    assert h[208..256] == slot;
    SlotKept(h[..], slot, p);
  }

  lemma SlotKept(h: seq<byte>, slot: seq<byte>, p: Params)
    requires |h| >= 592 && h[208..256] == slot && |p.slotSalt| == 32
    requires slot[0..4] == BE(4, ACTIVE) && slot[4..8] == BE(4, ITERATIONS) && slot[8..40] == p.slotSalt
    requires slot[40..44] == BE(4, MATERIAL_SECTOR) && slot[44..48] == BE(4, STRIPES)
    ensures Holds(h, 208, 4, ACTIVE) && Holds(h, 212, 4, ITERATIONS) && h[216..248] == p.slotSalt
    ensures Holds(h, 248, 4, MATERIAL_SECTOR) && Holds(h, 252, 4, STRIPES)
  {
    hide BE;
    SubSlice(h, 208, slot, 0, 4);
    SubSlice(h, 208, slot, 4, 4);
    SubSlice(h, 208, slot, 8, 32);
    SubSlice(h, 208, slot, 40, 4);
    SubSlice(h, 208, slot, 44, 4);
  }

  lemma NamesKept(a: seq<byte>, b: seq<byte>)
    requires Names(a) && |b| >= 592 && a[..104] == b[..104]
    ensures Names(b)
  {
    hide BE;
    SameSlice(a, b, 104, 0, 6);
    SameSlice(a, b, 104, 6, 2);
    SameSlice(a, b, 104, 8, 32);
    SameSlice(a, b, 104, 40, 32);
    SameSlice(a, b, 104, 72, 32);
  }

  lemma NumbersKept(a: seq<byte>, b: seq<byte>, s: Suite, p: Params)
    requires Numbers(a, s, p) && |b| >= 592 && a[..204] == b[..204]
    ensures Numbers(b, s, p)
  {
    hide BE, Digest;
    SameSlice(a, b, 204, 104, 4);
    SameSlice(a, b, 204, 108, 4);
    SameSlice(a, b, 204, 112, 20);
    SameSlice(a, b, 204, 132, 32);
    SameSlice(a, b, 204, 164, 4);
    SameSlice(a, b, 204, 168, 36);
  }

  lemma SlotsKept(a: seq<byte>, b: seq<byte>, p: Params)
    requires Slots(a, p) && |b| >= 592 && a[..592] == b[..592]
    ensures Slots(b, p)
  {
    hide BE;
    SameSlice(a, b, 592, 208, 4);
    SameSlice(a, b, 592, 212, 4);
    SameSlice(a, b, 592, 216, 32);
    SameSlice(a, b, 592, 248, 4);
    SameSlice(a, b, 592, 252, 4);
    forall i | 1 <= i < 8
      ensures Holds(b, 208 + 48 * i, 4, DEAD)
    {
      assert Holds(a, 208 + 48 * i, 4, DEAD);
      SameSlice(a, b, 592, 208 + 48 * i, 4);
    }
  }

  lemma MaterialSize(s: Suite, p: Params)
    requires Sound(s) && p.Valid()
    ensures |Material(s, p)| == MATERIAL_BYTES
  {
    hide Times, SplitMaterial, SlotKey, Lawful, Inverse;
    var split := SplitMaterial(s.hash, p.master, p.random, STRIPES);
    AreaLength(s.cipher, SlotKey(s, p), split, SECTOR, 0, Whole(|split|, SECTOR));
    SectorsOfMaterial();
  }

  lemma SectorsOfMaterial()
    ensures Whole(MATERIAL_BYTES, SECTOR) == 500 && Times(500, SECTOR) == MATERIAL_BYTES
  {
  }

  /** Builds the container: header fields, split and encrypted key, encrypted payload. */
  method BuildContainer(s: Suite, p: Params) returns (image: seq<byte>)
    requires Sound(s) && p.Valid()
    ensures |image| == HEADER + |Payload(s, p)| && IsHeader(image[..HEADER], s, p) && image[HEADER..] == Payload(s, p)
  {
    hide Times, SplitMaterial, Sound, Names, Numbers, Slots, Area, Whole;
    var header := new byte[HEADER](_ => 0);
    WriteNames(header);
    ghost var a := header[..];
    WriteNumbers(header, s, p);
    ghost var b := header[..];
    NamesKept(a, b);
    WriteSlots(header, p);
    ghost var c := header[..];
    NamesKept(b, c);
    NumbersKept(b, c, s, p);
    var km := new byte[|p.random|](k requires 0 <= k < |p.random| => p.random[k]);
    assert km[..] == p.random;
    assert Lawful(s.hash) by { SuiteParts(s); }
    Split(s.hash, p.master, km, STRIPES);
    var slotKey := s.kdf(p.passphrase, p.slotSalt, ITERATIONS, KEY_BYTES);
    var encrypted := CipherArea(s.cipher.encrypt, slotKey, km[..], SECTOR, 0);
    MaterialSize(s, p);
    Put(header, MATERIAL_SECTOR * SECTOR, encrypted);
    ghost var d := header[..];
    NamesKept(c, d);
    NumbersKept(c, d, s, p);
    SlotsKept(c, d, p);
    var payload := CipherArea(s.cipher.encrypt, p.master, p.inner, SECTOR, 0);
    image := header[..] + payload;
    assert image[..HEADER] == d;
  }

  lemma SuiteParts(s: Suite)
    requires Sound(s)
    ensures Lawful(s.hash) && Inverse(s.cipher)
  {
  }
}
