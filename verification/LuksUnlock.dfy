/** Unlocking a LUKS v1 container with a passphrase. */
module LuksUnlock {
  import opened Bytes
  import opened Options
  import opened AfSplit
  import opened Luks
  import opened LuksContainer

  datatype Slot = Slot(active: bool, iterations: nat, salt: seq<byte>, material: nat, stripes: nat)

  datatype V1 = V1(cipher: seq<byte>, mode: seq<byte>, hashSpec: seq<byte>, payload: nat, keyBytes: nat,
                   digest: seq<byte>, digestSalt: seq<byte>, digestIterations: nat, slots: seq<Slot>)

  const NO_SLOT: Slot := Slot(false, 0, [], 0, 0)

  function ReadSlot(buf: seq<byte>, i: nat): Slot
    requires |buf| >= 592 && i < 8
  {
    var base := 208 + 48 * i;
    if GetBE(buf, base, 4) != ACTIVE then NO_SLOT
    else Slot(true, GetBE(buf, base + 4, 4), buf[base + 8..base + 40], GetBE(buf, base + 40, 4),
      GetBE(buf, base + 44, 4))
  }

  function ReadSlots(buf: seq<byte>, n: nat): (slots: seq<Slot>)
    requires |buf| >= 592 && n <= 8
    ensures |slots| == n && forall i :: 0 <= i < n ==> slots[i] == ReadSlot(buf, i)
  {
    if n == 0 then [] else ReadSlots(buf, n - 1) + [ReadSlot(buf, n - 1)]
  }

  function Parse(buf: seq<byte>): Option<V1> {
    if |buf| < 592 || buf[0..6] != MAGIC || GetBE(buf, 6, 2) != 1 then None
    else Some(V1(buf[8..40], buf[40..72], buf[72..104], GetBE(buf, 104, 4), GetBE(buf, 108, 4),
                 buf[112..132], buf[132..164], GetBE(buf, 164, 4), ReadSlots(buf, 8)))
  }

  /** A null-padded field without its padding. */
  function Text(field: seq<byte>): seq<byte> {
    if field == [] || field[0] == 0 then [] else [field[0]] + Text(field[1..])
  }

  function FirstActive(slots: seq<Slot>, i: nat): (r: Option<nat>)
    requires i <= |slots|
    ensures r.Some? ==> r.value < |slots| && slots[r.value].active && forall j :: i <= j < r.value ==> !slots[j].active
    ensures r.None? ==> forall j :: i <= j < |slots| ==> !slots[j].active
    decreases |slots| - i
  {
    if i == |slots| then None else if slots[i].active then Some(i) else FirstActive(slots, i + 1)
  }

  /** What the header says about its first active slot, where the reader supports it. */
  function Usable(h: V1): Option<Slot> {
    if Text(h.cipher) != CIPHER_NAME || Text(h.mode) != CIPHER_MODE then None
    else if h.keyBytes != 32 && h.keyBytes != 64 then None
    else match FirstActive(h.slots, 0) case None => None case Some(i) => Some(h.slots[i])
  }

  /** The suite the hash field names: the first for sha256, else the second. */
  function Chosen(sha256: Suite, sha1: Suite, h: V1): Suite {
    if Text(h.hashSpec) == HASH_SPEC then sha256 else sha1
  }

  /** The area decrypted, a shorter last sector included. */
  function Decrypted(c: Cipher, key: seq<byte>, data: seq<byte>): seq<byte> {
    var n := Whole(|data|, SECTOR);
    Area(c.decrypt, key, data, SECTOR, 0, n) + if |data| % SECTOR == 0 then []
      else c.decrypt(key, Tweak(n), data[Times(n, SECTOR)..])
  }

  /** The key that a slot's material gives under a passphrase, before it is checked. */
  ghost function Candidate(s: Suite, h: V1, slot: Slot, material: seq<byte>, passphrase: seq<byte>): seq<byte>
    requires Sound(s) && slot.stripes >= 1
  {
    var km := Decrypted(s.cipher, s.kdf(passphrase, slot.salt, slot.iterations, h.keyBytes), material);
    if Times(slot.stripes, h.keyBytes) <= |km| then Merged(s.hash, km, h.keyBytes, slot.stripes) else []
  }

  predicate Verified(s: Suite, h: V1, key: seq<byte>) {
    s.kdf(key, h.digestSalt, h.digestIterations, 20) == h.digest
  }

  predicate MaterialInside(image: seq<byte>, h: V1, slot: Slot) {
    slot.stripes >= 1 && slot.material * SECTOR + Times(slot.stripes, h.keyBytes) <= |image|
  }

  ghost function Unlock(sha256: Suite, sha1: Suite, image: seq<byte>, passphrase: seq<byte>): Option<seq<byte>>
    requires Sound(sha256) && Sound(sha1)
  {
    match Parse(image)
    case None => None
    case Some(h) =>
      match Usable(h)
      case None => None
      case Some(slot) =>
        if !MaterialInside(image, h, slot) then None else
        var s, off := Chosen(sha256, sha1, h), slot.material * SECTOR;
        var key := Candidate(s, h, slot, image[off..off + Times(slot.stripes, h.keyBytes)], passphrase);
        if Verified(s, h, key) then Some(key) else None
  }

  lemma {:induction false} TextOfPadded(name: seq<byte>, pad: seq<byte>)
    requires forall k :: 0 <= k < |name| ==> name[k] != 0
    requires forall k :: 0 <= k < |pad| ==> pad[k] == 0
    ensures Text(name + pad) == name
  {
    if name == [] {
      assert name + pad == pad;
    } else {
      TextOfPadded(name[1..], pad);
      assert (name + pad)[1..] == name[1..] + pad;
    }
  }

  lemma NamesRead(h: seq<byte>)
    requires Names(h)
    ensures Text(h[8..40]) == CIPHER_NAME && Text(h[40..72]) == CIPHER_MODE && Text(h[72..104]) == HASH_SPEC
    ensures h[0..6] == MAGIC && GetBE(h, 6, 2) == 1
  {
    hide BE, Text;
    TextOfPadded(CIPHER_NAME, seq(29, _ => 0));
    TextOfPadded(CIPHER_MODE, seq(21, _ => 0));
    TextOfPadded(HASH_SPEC, seq(26, _ => 0));
    WidthLimits();
    FieldRead(h, 6, 2, 1);
  }

  lemma NumbersRead(h: seq<byte>, s: Suite, p: Params)
    requires Numbers(h, s, p)
    ensures GetBE(h, 104, 4) == PAYLOAD_SECTORS && GetBE(h, 108, 4) == KEY_BYTES && GetBE(h, 164, 4) == ITERATIONS
  {
    hide BE, GetBE, Digest;
    WidthLimits();
    FieldRead(h, 104, 4, PAYLOAD_SECTORS);
    FieldRead(h, 108, 4, KEY_BYTES);
    FieldRead(h, 164, 4, ITERATIONS);
  }

  lemma SlotRead(h: seq<byte>, p: Params)
    requires Slots(h, p)
    ensures ReadSlot(h, 0) == Slot(true, ITERATIONS, p.slotSalt, MATERIAL_SECTOR, STRIPES)
  {
    hide BE, GetBE;
    WidthLimits();
    FieldRead(h, 208, 4, ACTIVE);
    FieldRead(h, 212, 4, ITERATIONS);
    FieldRead(h, 248, 4, MATERIAL_SECTOR);
    FieldRead(h, 252, 4, STRIPES);
  }

  /** The header fields of a built container, as the reader parses them. */
  lemma HeaderRead(image: seq<byte>, s: Suite, p: Params)
    requires |image| >= 592 && Names(image) && Numbers(image, s, p) && Slots(image, p)
    ensures Parse(image).Some?
    ensures var h := Parse(image).value;
            && Usable(h) == Some(Slot(true, ITERATIONS, p.slotSalt, MATERIAL_SECTOR, STRIPES))
            && Text(h.hashSpec) == HASH_SPEC
            && h.keyBytes == KEY_BYTES && h.payload == PAYLOAD_SECTORS
            && h.digest == Digest(s, p) && h.digestSalt == p.digestSalt && h.digestIterations == ITERATIONS
  {
    hide BE, GetBE, Digest, Text, ReadSlot;
    NamesRead(image);
    NumbersRead(image, s, p);
    SlotRead(image, p);
  }

  /** Decrypting and merging the stored material gives the master key. */
  lemma MaterialOpens(s: Suite, p: Params)
    requires Sound(s) && p.Valid()
    ensures |Material(s, p)| == MATERIAL_BYTES
    ensures var km := Decrypted(s.cipher, SlotKey(s, p), Material(s, p));
            |km| == Times(STRIPES, KEY_BYTES) && Merged(s.hash, km, KEY_BYTES, STRIPES) == p.master
  {
    hide Times, Lawful, Inverse, SlotKey, Area, SplitMaterial, Merged;
    MaterialSize(s, p);
    SectorsOfMaterial();
    var split, key := SplitMaterial(s.hash, p.master, p.random, STRIPES), SlotKey(s, p);
    AreaRoundTrip(s.cipher, key, split, SECTOR, 0, 500);
    assert split[..Times(500, SECTOR)] == split;
    var km := Decrypted(s.cipher, key, Material(s, p));
    assert km == Area(s.cipher.decrypt, key, Material(s, p), SECTOR, 0, 500) + [];
    assert km == split;
    MergeOfSplit(s.hash, p.master, p.random, STRIPES);
  }

  /** A built container: what BuildContainer promises. */
  ghost predicate Built(image: seq<byte>, s: Suite, p: Params) {
    && Sound(s) && p.Valid()
    && |image| == HEADER + |Payload(s, p)| && IsHeader(image[..HEADER], s, p) && image[HEADER..] == Payload(s, p)
  }

  /** The right passphrase recovers the master key, and the master key the content. */
  lemma UnlocksBuilt(image: seq<byte>, s: Suite, sha1: Suite, p: Params)
    requires Built(image, s, p) && Sound(sha1)
    ensures Unlock(s, sha1, image, p.passphrase) == Some(p.master)
    ensures Parse(image).Some? && Parse(image).value.payload * SECTOR == HEADER
    ensures |p.inner| % SECTOR == 0 ==> Decrypted(s.cipher, p.master, image[HEADER..]) == p.inner
  {
    hide Times, Names, Numbers, Slots, Parse, Usable, Material, Payload, Decrypted, Merged, Sound, Digest, SlotKey,
      Text;
    var head := image[..HEADER];
    assert head[..104] == image[..104] && head[..204] == image[..204] && head[..592] == image[..592];
    NamesKept(head, image);
    NumbersKept(head, image, s, p);
    SlotsKept(head, image, p);
    HeaderRead(image, s, p);
    MaterialOpens(s, p);
    assert image[4096..4096 + MATERIAL_BYTES] == head[4096..4096 + MATERIAL_BYTES];
    DerivedKeys(s, p);
    PayloadOpens(s, p);
  }

  /** The key that the stored material gives under some passphrase. */
  ghost function KeyUnder(s: Suite, p: Params, passphrase: seq<byte>): seq<byte>
    requires Sound(s) && p.Valid()
  {
    var km := Decrypted(s.cipher, s.kdf(passphrase, p.slotSalt, ITERATIONS, KEY_BYTES), Material(s, p));
    if Times(STRIPES, KEY_BYTES) <= |km| then Merged(s.hash, km, KEY_BYTES, STRIPES) else []
  }

  /**
   On a built container a passphrase, right or wrong, is accepted exactly if the key it gives has the master key's
   digest, and then that key is handed out. So where no other key has that digest, only the master key ever is.
   */
  lemma AcceptedExactly(image: seq<byte>, s: Suite, sha1: Suite, p: Params, passphrase: seq<byte>)
    requires Built(image, s, p) && Sound(sha1)
    ensures var key := KeyUnder(s, p, passphrase);
            Unlock(s, sha1, image, passphrase) ==
            if s.kdf(key, p.digestSalt, ITERATIONS, 20) == s.kdf(p.master, p.digestSalt, ITERATIONS, 20) then Some(key)
              else None
    ensures (forall k :: s.kdf(k, p.digestSalt, ITERATIONS, 20) == s.kdf(p.master, p.digestSalt, ITERATIONS, 20) ==>
              k == p.master) ==>
              (Unlock(s, sha1, image, passphrase) == Some(p.master) <==> KeyUnder(s, p, passphrase) == p.master)
  {
    hide Times, Names, Numbers, Slots, Parse, Usable, Material, Payload, Decrypted, Merged, Sound, Digest, SlotKey,
      Text;
    var head := image[..HEADER];
    assert head[..104] == image[..104] && head[..204] == image[..204] && head[..592] == image[..592];
    NamesKept(head, image);
    NumbersKept(head, image, s, p);
    SlotsKept(head, image, p);
    HeaderRead(image, s, p);
    MaterialOpens(s, p);
    assert image[4096..4096 + MATERIAL_BYTES] == head[4096..4096 + MATERIAL_BYTES];
    DerivedKeys(s, p);
  }

  lemma DerivedKeys(s: Suite, p: Params)
    ensures SlotKey(s, p) == s.kdf(p.passphrase, p.slotSalt, ITERATIONS, KEY_BYTES)
    ensures Digest(s, p) == s.kdf(p.master, p.digestSalt, ITERATIONS, 20)
  {
  }

  lemma PayloadOpens(s: Suite, p: Params)
    requires Sound(s) && p.Valid()
    ensures |p.inner| % SECTOR == 0 ==> Decrypted(s.cipher, p.master, Payload(s, p)) == p.inner
  {
    hide Times, Lawful, Inverse, Area;
    var n := Whole(|p.inner|, SECTOR);
    WholeAndRest(|p.inner|, SECTOR);
    AreaRoundTrip(s.cipher, p.master, p.inner, SECTOR, 0, n);
    WholeOfProduct(n, SECTOR);
    assert p.inner[..|p.inner|] == p.inner;
  }

  method ReadKeySlots(buf: seq<byte>) returns (slots: seq<Slot>)
    requires |buf| >= 592
    ensures slots == ReadSlots(buf, 8)
  {
    hide GetBE;
    slots := [];
    for i := 0 to 8
      invariant slots == ReadSlots(buf, i)
    {
      slots := slots + [ReadSlot(buf, i)];
    }
  }

  method FindActive(slots: seq<Slot>) returns (r: Option<nat>)
    ensures r == FirstActive(slots, 0)
  {
    var i := 0;
    while i < |slots|
      invariant i <= |slots| && FirstActive(slots, 0) == FirstActive(slots, i)
    {
      if slots[i].active {
        return Some(i);
      }
      i := i + 1;
    }
    return None;
  }

  method DecryptMaterial(c: Cipher, key: seq<byte>, data: seq<byte>) returns (r: seq<byte>)
    ensures r == Decrypted(c, key, data)
  {
    hide Area;
    r := CipherArea(c.decrypt, key, data, SECTOR, 0);
    var n := Whole(|data|, SECTOR);
    if |data| % SECTOR != 0 {
      r := r + c.decrypt(key, Tweak(n), data[Times(n, SECTOR)..]);
    }
  }

  /** Key derivation, decryption, merge and digest check, in that order. */
  method UnlockContainer(sha256: Suite, sha1: Suite, image: seq<byte>,
                         passphrase: seq<byte>) returns (r: Option<seq<byte>>)
    requires Sound(sha256) && Sound(sha1)
    ensures r == Unlock(sha256, sha1, image, passphrase)
  {
    hide GetBE, Times, Sound, Text, Decrypted, Merged, ReadSlot;
    if |image| < 592 || image[0..6] != MAGIC || GetBE(image, 6, 2) != 1 {
      return None;
    }
    var slots := ReadKeySlots(image);
    var h := V1(image[8..40], image[40..72], image[72..104], GetBE(image, 104, 4), GetBE(image, 108, 4),
                image[112..132], image[132..164], GetBE(image, 164, 4), slots);
    if Text(h.cipher) != CIPHER_NAME || Text(h.mode) != CIPHER_MODE {
      return None;
    }
    if h.keyBytes != 32 && h.keyBytes != 64 {
      return None;
    }
    var found := FindActive(h.slots);
    if found.None? {
      return None;
    }
    var slot := h.slots[found.value];
    if slot.stripes < 1 || slot.material * SECTOR + Times(slot.stripes, h.keyBytes) > |image| {
      return None;
    }
    var s := if Text(h.hashSpec) == HASH_SPEC then sha256 else sha1;
    var off := slot.material * SECTOR;
    var derived := s.kdf(passphrase, slot.salt, slot.iterations, h.keyBytes);
    var km := DecryptMaterial(s.cipher, derived, image[off..off + Times(slot.stripes, h.keyBytes)]);
    SuiteParts(s);
    var key: seq<byte> := [];
    if Times(slot.stripes, h.keyBytes) <= |km| {
      key := Merge(s.hash, km, h.keyBytes, slot.stripes);
    }
    if s.kdf(key, h.digestSalt, h.digestIterations, 20) != h.digest {
      return None;
    }
    return Some(key);
  }

  /** Building a container and unlocking it again. */
  method RoundTrip(s: Suite, sha1: Suite, p: Params) returns (image: seq<byte>, key: Option<seq<byte>>)
    requires Sound(s) && Sound(sha1) && p.Valid()
    ensures key == Some(p.master)
    ensures |image| >= HEADER && (|p.inner| % SECTOR == 0 ==> Decrypted(s.cipher, p.master, image[HEADER..]) == p.inner)
  {
    hide Sound, Unlock, IsHeader, Payload, Decrypted, Parse;
    image := BuildContainer(s, p);
    key := UnlockContainer(s, sha1, image, p.passphrase);
    UnlocksBuilt(image, s, sha1, p);
  }

  /** Only a version 1 header is unlocked, with the name and mode of the one cipher and a key of 32 or 64 bytes. */
  lemma ForeignRefused(sha256: Suite, sha1: Suite, image: seq<byte>, passphrase: seq<byte>)
    requires Sound(sha256) && Sound(sha1) && Unlock(sha256, sha1, image, passphrase).Some?
    ensures |image| >= 592 && image[..8] == [0x4C, 0x55, 0x4B, 0x53, 0xBA, 0xBE, 0, 1]
    ensures Text(image[8..40]) == [97, 101, 115] && GetBE(image, 108, 4) in {32, 64}
    ensures Text(image[40..72]) == [120, 116, 115, 45, 112, 108, 97, 105, 110, 54, 52]
  {
    hide Merged, Text;
    VersionBytes(image[6..8]);
    assert image[..8] == image[0..6] + image[6..8];
  }

  lemma VersionBytes(s: seq<byte>)
    requires |s| == 2 && FromBE(s) == 1
    ensures s == [0, 1]
  {
    assert FromBE(s[..1]) == s[0];
  }
}
