/** An image on a device of whole sectors: searched for its trailer, opened and read back. */
module DmgDevice {
  import opened Bytes
  import opened Options
  import opened DmgTable
  import opened DmgImage
  import opened DmgParse
  import opened DmgKoly
  import opened DmgReader
  import opened DmgRoundTrip

  const MAX_SECTOR: nat := 65536

  lemma RoomForTrailer(device: seq<byte>, sector: nat, at: nat)
    requires LocatedAt(device, sector, at)
    ensures at + KOLY <= |device|
  {
    hide MagicAt;
  }

  /** What the reader finds: the image that ends with the trailer it locates, if it locates one. */
  method OpenDevice(device: seq<byte>, sector: nat) returns (r: Option<Opened>)
    requires sector > 0 && |device| % sector == 0
    ensures (forall at: nat :: !LocatedAt(device, sector, at)) ==> r == None
    ensures forall at: nat :: LocatedAt(device, sector, at) ==>
              at + KOLY <= |device| && r == Open(device[..at + KOLY])
    ensures r.Some? ==> Sorted(r.value.table) && Stageable(r.value.table)
  {
    hide Open, MagicAt, Sorted, Stageable, LocatedAt;
    forall at: nat | LocatedAt(device, sector, at)
      ensures at + KOLY <= |device|
    {
      RoomForTrailer(device, sector, at);
    }
    var at := Locate(device, sector);
    if at.None? {
      return None;
    }
    assert LocatedAt(device, sector, at.value);
    r := Open(device[..at.value + KOLY]);
    if r.Some? {
      OpenedIsReadable(device[..at.value + KOLY]);
    }
  }

  /** Bytes up to the next sector boundary. */
  function Missing(size: nat, sector: nat): nat
    requires sector > 0
  {
    if size % sector == 0 then 0 else sector - size % sector
  }

  lemma Rounded(size: nat, sector: nat)
    requires sector > 0
    ensures (size + Missing(size, sector)) % sector == 0 && Missing(size, sector) < sector
  {
    hide Times;
    WholeAndRest(size, sector);
    if size % sector != 0 {
      TimesStep(size / sector, sector);
      QuotientIs(size + Missing(size, sector), size / sector + 1, sector, 0);
    }
  }

  /** The file as a device presents it. */
  function Padded(file: seq<byte>, sector: nat): (device: seq<byte>)
    requires sector >= KOLY
    ensures OnDevice(file, device, sector)
  {
    Rounded(|file|, sector);
    file + Zeros(Missing(|file|, sector))
  }

  /**
   Building, presenting the file as a device of any sector size, searching it for the trailer and reading back. The
   disk comes back whenever the trailer is unmistakable, which is exactly when the search finds it.
   */
  method DeviceRoundTrip(z: Codec, blocks: seq<seq<Spec>>, useFork: bool, sector: nat, buffer: seq<byte>,
                         history: seq<(nat, nat)>, off: nat, size: nat)
    returns (file: seq<byte>, r: Option<seq<byte>>)
    requires Lawful(z) && BlocksValid(blocks) && Flat(blocks) != [] && BlocksStaged(z, blocks)
    requires RegionSize(blocks, useFork) <= REGION_CAP && |buffer| == MAX_INFLATED && Addressable(history)
    requires off + size < U64 && KOLY <= sector <= MAX_SECTOR
    ensures |file| == |ForkOf(z, Flat(blocks))| + RegionSize(blocks, useFork) + KOLY && MagicAt(file, |file| - KOLY)
    ensures LocatedAt(Padded(file, sector), sector, |file| - KOLY) <==> Unmistakable(file, Padded(file, sector), sector)
    ensures Unmistakable(file, Padded(file, sector), sector) ==> r == Range(Flat(blocks), off, size)
  {
    hide ForkOf, Sectors, Open, ChunksFrom, BlocksStaged, BlocksValid, Lawful, AllValid, AllStaged, RegionSize, Sorted,
      Stageable, Range, MagicAt, LocatedAt, Unmistakable, ReadFrom, After;
    FileFits(z, blocks, useFork);
    file := BuildImage(z, blocks, useFork);
    var device := Padded(file, sector);
    TrailerLocated(file, device, sector);
    var disk := OpenDevice(device, sector);
    if disk.None? {
      r := None;
    } else {
      r := ReadAfter(z, device, disk.value, buffer, history, off, size);
    }
    if Unmistakable(file, device, sector) {
      FlatValid(blocks);
      FlatStaged(z, blocks);
      assert device[..|file|] == file;
      assert device[..|ForkOf(z, Flat(blocks))|] == file[..|ForkOf(z, Flat(blocks))|];
      BuiltRange(z, device, Flat(blocks), buffer, history, off, size);
    }
  }
}
