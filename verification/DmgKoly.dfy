/** Finding the trailer of an image on a device whose capacity is rounded up to whole sectors. */
module DmgKoly {
  import opened Bytes
  import opened Options
  import opened DmgImage

  const KOLY: nat := 512
  const KOLY_MAGIC: seq<byte> := [0x6B, 0x6F, 0x6C, 0x79]

  predicate MagicAt(s: seq<byte>, i: nat) {
    i + 4 <= |s| && s[i..i + 4] == KOLY_MAGIC
  }

  predicate NoMagic(s: seq<byte>, from: nat, to: nat) {
    forall i :: from <= i < to ==> !MagicAt(s, i)
  }

  /** The last magic in a buffer. */
  method FindLast(tail: seq<byte>) returns (r: Option<nat>)
    ensures r.None? ==> NoMagic(tail, 0, |tail|)
    ensures r.Some? ==> MagicAt(tail, r.value) && NoMagic(tail, r.value + 1, |tail|)
  {
    hide MagicAt;
    r := None;
    var i := 0;
    while i + 4 <= |tail|
      invariant r.None? ==> NoMagic(tail, 0, i)
      invariant r.Some? ==> r.value < i && MagicAt(tail, r.value) && NoMagic(tail, r.value + 1, i)
    {
      if tail[i..i + 4] == KOLY_MAGIC {
        assert MagicAt(tail, i) by { ThatIsMagic(tail, i); }
        r := Some(i);
      } else {
        assert !MagicAt(tail, i) by { ThatIsMagic(tail, i); }
      }
      i := i + 1;
    }
    NoRoom(tail, i);
  }

  lemma ThatIsMagic(s: seq<byte>, i: nat)
    requires i + 4 <= |s|
    ensures MagicAt(s, i) <==> s[i..i + 4] == KOLY_MAGIC
  {
  }

  lemma NoRoom(s: seq<byte>, i: nat)
    requires i + 4 > |s|
    ensures NoMagic(s, i, |s|)
  {
  }

  /** The first magic from start to end. */
  method FindFirst(s: seq<byte>, start: nat, end: nat) returns (r: Option<nat>)
    requires start <= end
    ensures r.None? ==> NoMagic(s, start, end + 1)
    ensures r.Some? ==> start <= r.value <= end && MagicAt(s, r.value) && NoMagic(s, start, r.value)
  {
    hide MagicAt;
    var i := start;
    while i <= end
      invariant start <= i <= end + 1 && NoMagic(s, start, i)
    {
      if MagicAt(s, i) {
        return Some(i);
      }
      i := i + 1;
    }
    return None;
  }

  /** Where the tail that is read begins: one or two sectors before the end. */
  function TailBase(size: nat, sector: nat): (b: nat)
    ensures b <= size
  {
    if size <= 2 * sector then 0 else size - 2 * sector
  }

  function Back(n: nat, k: nat): nat {
    if n < k then 0 else n - k
  }

  /** First the last magic of the tail, then the first one in the window of 512 offsets that ends there. */
  ghost predicate LocatedAt(device: seq<byte>, sector: nat, at: nat) {
    exists last ::
      && TailBase(|device|, sector) <= last && MagicAt(device, last) && NoMagic(device, last + 1, |device|)
      && last + KOLY <= |device|
      && Back(last, 511) <= at && TailBase(|device|, sector) <= at <= last && MagicAt(device, at)
      && forall i :: Back(last, 511) <= i < at && TailBase(|device|, sector) <= i ==> !MagicAt(device, i)
  }

  lemma SameMagic(device: seq<byte>, base: nat, i: nat)
    requires base <= |device|
    ensures MagicAt(device[base..], i) <==> MagicAt(device, base + i)
  {
    if base + i + 4 <= |device| {
      assert device[base..][i..i + 4] == device[base + i..base + i + 4];
    }
  }

  /** The reader's search. The device is one sector, or two or more. */
  method Locate(device: seq<byte>, sector: nat) returns (r: Option<nat>)
    requires sector > 0 && |device| % sector == 0
    ensures forall at: nat :: r == Some(at) <==> LocatedAt(device, sector, at)
  {
    hide MagicAt;
    if |device| == 0 {
      Nothing(device, sector);
      return None;
    }
    var base := TailBase(|device|, sector);
    var tail := device[base..];
    var idx := FindLast(tail);
    forall i: nat
      ensures MagicAt(tail, i) <==> MagicAt(device, base + i)
    {
      SameMagic(device, base, i);
    }
    if idx.None? {
      assert forall i :: base <= i < |device| && MagicAt(device, i) ==> MagicAt(tail, i - base);
      return None;
    }
    var last := base + idx.value;
    assert NoMagic(device, last + 1, |device|) by {
      assert forall i :: last < i < |device| && MagicAt(device, i) ==> MagicAt(tail, i - base);
    }
    if idx.value + KOLY > |tail| {
      MagicInside(device);
      forall l: nat | MagicAt(device, l) && NoMagic(device, l + 1, |device|)
        ensures l == last
      {
        assert MagicAt(device, last);
      }
      return None;
    }
    var start := if Back(last, 511) < base then base else Back(last, 511);
    r := FindFirst(device, start, last);
    forall at: nat | LocatedAt(device, sector, at)
      ensures r == Some(at)
    {
      OnePlace(device, sector, r.value, at);
    }
  }

  lemma MagicInside(device: seq<byte>)
    ensures forall i: nat :: MagicAt(device, i) ==> i < |device|
  {
  }

  lemma Nothing(device: seq<byte>, sector: nat)
    requires |device| == 0
    ensures forall at :: !LocatedAt(device, sector, at)
  {
  }

  /** At most one place is located. */
  lemma OnePlace(device: seq<byte>, sector: nat, a: nat, b: nat)
    requires LocatedAt(device, sector, a) && LocatedAt(device, sector, b)
    ensures a == b
  {
    hide MagicAt;
    MagicInside(device);
  }

  // ----- a file on a device -----

  /** A file, and zeros up to the next sector boundary. */
  predicate OnDevice(file: seq<byte>, device: seq<byte>, sector: nat) {
    && sector >= KOLY && |device| % sector == 0 && |file| <= |device| < |file| + sector
    && device == file + Zeros(|device| - |file|)
  }

  lemma PaddingHasNone(file: seq<byte>, device: seq<byte>, sector: nat, i: nat)
    requires OnDevice(file, device, sector)
    ensures MagicAt(device, i) <==> MagicAt(file, i)
  {
    if i + 4 <= |file| {
      assert device[i..i + 4] == file[i..i + 4];
    } else if i + 4 <= |device| {
      assert device[i..i + 4][3] == 0;
    }
  }

  lemma TailHoldsTrailer(size: nat, device: nat, sector: nat)
    requires sector >= KOLY && size >= KOLY && size <= device < size + sector && device % sector == 0
    ensures TailBase(device, sector) <= size - KOLY
  {
  }

  /** Where the last magic of a file lies, and no other before the trailer in the window that ends there. */
  ghost predicate Unmistakable(file: seq<byte>, device: seq<byte>, sector: nat)
    requires |file| >= KOLY
  {
    exists last ::
      && |file| - KOLY <= last && MagicAt(file, last) && NoMagic(file, last + 1, |file|) && last + KOLY <= |device|
      && forall i :: Back(last, 511) <= i < |file| - KOLY && TailBase(|device|, sector) <= i ==> !MagicAt(file, i)
  }

  /**
   The trailer in the last 512 bytes of a file is located exactly if the last magic of the file leaves room for a
   trailer on the device and none precedes the trailer in the 512 offsets up to it.
   */
  lemma TrailerLocated(file: seq<byte>, device: seq<byte>, sector: nat)
    requires OnDevice(file, device, sector) && |file| >= KOLY && MagicAt(file, |file| - KOLY)
    ensures LocatedAt(device, sector, |file| - KOLY) <==> Unmistakable(file, device, sector)
  {
    hide MagicAt;
    TailHoldsTrailer(|file|, |device|, sector);
    MagicInside(file);
    MagicInside(device);
    forall i: nat
      ensures MagicAt(device, i) <==> MagicAt(file, i)
    {
      PaddingHasNone(file, device, sector, i);
    }
  }

  /** In particular, if the last 1023 bytes hold no other magic. */
  lemma LoneTrailerLocated(file: seq<byte>, device: seq<byte>, sector: nat)
    requires OnDevice(file, device, sector) && |file| >= KOLY && MagicAt(file, |file| - KOLY)
    requires NoMagic(file, Back(|file|, 1023), |file| - KOLY) && NoMagic(file, |file| - KOLY + 1, |file|)
    ensures LocatedAt(device, sector, |file| - KOLY)
  {
    hide MagicAt;
    TrailerLocated(file, device, sector);
    var last := |file| - KOLY;
    assert MagicAt(file, last) && NoMagic(file, last + 1, |file|);
  }

  /** Four bytes of magic in front of a trailer that is otherwise zero. */
  function TwoMagics(): (file: seq<byte>)
    ensures |file| == 516
  {
    KOLY_MAGIC + KOLY_MAGIC + Zeros(508)
  }

  /** On a device of 512-byte sectors its trailer, at byte 4, is not located. */
  lemma TrailerMissed()
    ensures var file := TwoMagics();
            && OnDevice(file, file + Zeros(508), 512) && MagicAt(file, |file| - KOLY)
            && !LocatedAt(file + Zeros(508), 512, |file| - KOLY)
  {
    var file := TwoMagics();
    var device := file + Zeros(508);
    assert file[0..4] == KOLY_MAGIC && file[4..8] == KOLY_MAGIC;
    assert MagicAt(file, 0) && MagicAt(file, 4);
    TrailerLocated(file, device, 512);
    forall last: nat | last >= 8
      ensures !MagicAt(file, last)
    {
      if last + 4 <= |file| {
        assert file[last..last + 4][0] == 0;
      }
    }
    assert TailBase(|device|, 512) == 0;
    hide MagicAt;
    assert !Unmistakable(file, device, 512);
  }
}
