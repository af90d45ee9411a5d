/** The start-up configuration: built by the VMM, framed, sent, and read back by the guest. */
module HandOff {
  import opened Bytes
  import opened Options
  import opened Framing
  import opened Placement

  const MAX_DEVICES: nat := 17
  const INPUT: seq<byte> := [105, 110, 112, 117, 116]
  const OUTPUT: seq<byte> := [111, 117, 116, 112, 117, 116]

  datatype DeviceEntry = DeviceEntry(name: seq<byte>, sectorSize: nat)

  datatype VmmConfig = VmmConfig(devices: seq<DeviceEntry>, progressPercent: nat)

  // ----- VMM side -----

  /** "input1" to "input99"; from 100 on the tens digit leaves the digits (and from 800 on, UTF-8). */
  function ChainDeviceName(index: nat): seq<byte> {
    if index < 10 then INPUT + [48 + index]
    else
      var tens := (48 + index / 10 % 256) % 256;
      if tens >= 128 then INPUT + [48, 48] else INPUT + [tens, 48 + index % 10]
  }

  /** The bounded list of devices ignores what does not fit. */
  function Push(devices: seq<DeviceEntry>, d: DeviceEntry): seq<DeviceEntry> {
    if |devices| < MAX_DEVICES then devices + [d] else devices
  }

  function InputEntry(sectorSize: nat, i: nat): DeviceEntry {
    DeviceEntry(if i == 0 then INPUT else ChainDeviceName(i), sectorSize)
  }

  /** `count` chain inputs and, unless it no longer fits, one output. */
  method ConfigChainWithOutput(sectorSize: nat, outputSectorSize: nat, count: nat,
                               progressPercent: nat) returns (config: VmmConfig)
    ensures config.progressPercent == progressPercent
    ensures config.devices ==
            seq(if count <= MAX_DEVICES then count else MAX_DEVICES, i requires 0 <= i => InputEntry(sectorSize, i))
            + if count < MAX_DEVICES then [DeviceEntry(OUTPUT, outputSectorSize)] else []
  {
    var devices := [];
    for i := 0 to count
      invariant devices ==
                seq(if i <= MAX_DEVICES then i else MAX_DEVICES, k requires 0 <= k => InputEntry(sectorSize, k))
    {
      devices := Push(devices, if i == 0 then DeviceEntry(INPUT, sectorSize)
        else DeviceEntry(ChainDeviceName(i), sectorSize));
    }
    devices := Push(devices, DeviceEntry(OUTPUT, outputSectorSize));
    config := VmmConfig(devices, progressPercent);
  }

  // ----- guest side -----

  const DEFAULT_CONFIG: DeviceConfig := DeviceConfig(512, 512, 10, false, 1,
    [0, 0, 0, 0, 0, 0, 0, 0, 0, 0, 0, 0, 0, 0, 0])

  predicate AllDigits(digits: seq<byte>) {
    forall k :: 0 <= k < |digits| ==> 48 <= digits[k] <= 57
  }

  function DecimalValue(digits: seq<byte>): nat
    requires AllDigits(digits)
  {
    if digits == [] then 0 else 10 * DecimalValue(digits[..|digits| - 1]) + digits[|digits| - 1] - 48
  }

  /** The decimal value of a digit string, in 64-bit arithmetic; zero if anything is not a digit. */
  function ParsedIndex(digits: seq<byte>): nat {
    if AllDigits(digits) then DecimalValue(digits) % U64 else 0
  }

  method ParseDeviceIndex(digits: seq<byte>) returns (r: nat)
    ensures r == ParsedIndex(digits)
  {
    r := 0;
    for k := 0 to |digits|
      invariant AllDigits(digits[..k]) && r == DecimalValue(digits[..k]) % U64
    {
      var b := digits[k];
      if 48 <= b <= 57 {
        assert digits[..k + 1][..k] == digits[..k];
        ModStep(DecimalValue(digits[..k]), b - 48);
        r := (r * 10 + (b - 48)) % U64;
      } else {
        return 0;
      }
    }
    assert digits[..|digits|] == digits;
  }

  lemma ModStep(v: nat, d: nat)
    ensures (v % U64 * 10 + d) % U64 == (10 * v + d) % U64
  {
    var k := v / U64;
    assert 10 * v + d == (v % U64 * 10 + d) + 10 * k * U64;
  }

  /** Which configuration a device entry contributes to. */
  datatype Role = TopInput | ChainInput(index: nat) | OutputDevice | Ignored

  function RoleOf(name: seq<byte>): Role {
    if name == INPUT then TopInput
    else if |name| > 5 && name[..5] == INPUT then
      var idx := ParsedIndex(name[5..]);
      if 0 < idx <= EXTRA_INPUTS then ChainInput(idx) else Ignored
    else if name == OUTPUT then OutputDevice
    else Ignored
  }

  /** The guest's configuration and its count of inputs, after some of the entries. */
  datatype Partial = Partial(config: DeviceConfig, inputs: nat)

  function Absorb(p: Partial, d: DeviceEntry): (r: Partial)
    requires p.config.WellFormed()
    ensures r.config.WellFormed()
  {
    match RoleOf(d.name)
    case TopInput => Partial(p.config.(inputSectorSize := d.sectorSize), p.inputs + 1)
    case ChainInput(i) => Partial(p.config.(extraSectorSizes := p.config.extraSectorSizes[i - 1 := d.sectorSize]),
      p.inputs + 1)
    case OutputDevice => Partial(p.config.(outputSectorSize := d.sectorSize, hasOutput := true), p.inputs)
    case Ignored => p
  }

  function AbsorbAll(devices: seq<DeviceEntry>): (r: Partial)
    ensures r.config.WellFormed()
  {
    if devices == [] then Partial(DEFAULT_CONFIG, 0)
    else Absorb(AbsorbAll(devices[..|devices| - 1]), devices[|devices| - 1])
  }

  /** What the guest runs with, given a decoded message. */
  function Adopt(vmm: VmmConfig): DeviceConfig {
    var p := AbsorbAll(vmm.devices);
    p.config.(inputCount := p.inputs, progressPercent := vmm.progressPercent)
  }

  datatype Arrival = Configured(config: DeviceConfig) | Waiting

  /** The outcome for all the bytes the line will ever deliver: a guest short of bytes waits for ever. */
  function Receive(codec: Codec<VmmConfig>, line: seq<byte>): Arrival {
    if line == [] then Configured(DEFAULT_CONFIG)
    else if |line| < FRAME_HEADER_SIZE then Waiting
    else
      var total := FRAME_HEADER_SIZE + GetLE(line, 0, 2);
      if total > FRAME_HEADER_SIZE + MAX_MESSAGE_SIZE then Configured(DEFAULT_CONFIG)
      else if |line| < total then Waiting
      else match DecodeFramed(codec, line[..total])
           case None => Configured(DEFAULT_CONFIG)
           case Some((vmm, _)) => Configured(Adopt(vmm))
  }

  /** Works through the device list, entry by entry. */
  method AdoptDevices(vmm: VmmConfig) returns (config: DeviceConfig)
    ensures config == Adopt(vmm)
  {
    config := DEFAULT_CONFIG;
    var inputs := 0;
    for k := 0 to |vmm.devices|
      invariant config.WellFormed() && Partial(config, inputs) == AbsorbAll(vmm.devices[..k])
    {
      var d := vmm.devices[k];
      assert vmm.devices[..k + 1][..k] == vmm.devices[..k];
      if d.name == INPUT {
        config := config.(inputSectorSize := d.sectorSize);
        inputs := inputs + 1;
      } else if |d.name| > 5 && d.name[..5] == INPUT {
        var idx := ParseDeviceIndex(d.name[5..]);
        if 0 < idx <= EXTRA_INPUTS {
          config := config.(extraSectorSizes := config.extraSectorSizes[idx - 1 := d.sectorSize]);
          inputs := inputs + 1;
        }
      } else if d.name == OUTPUT {
        config := config.(outputSectorSize := d.sectorSize, hasOutput := true);
      }
    }
    assert vmm.devices[..|vmm.devices|] == vmm.devices;
    config := config.(inputCount := inputs, progressPercent := vmm.progressPercent);
  }

  method ReadConfig(codec: Codec<VmmConfig>, line: seq<byte>) returns (r: Arrival)
    ensures r == Receive(codec, line)
  {
    hide Adopt, FromLE;
    var config := DEFAULT_CONFIG;
    if line == [] {
      return Configured(config);
    }
    var buf := new byte[FRAME_HEADER_SIZE + MAX_MESSAGE_SIZE](_ => 0);
    var pos := 0;
    while pos < FRAME_HEADER_SIZE
      invariant pos <= FRAME_HEADER_SIZE && pos <= |line| && buf[..pos] == line[..pos]
    {
      if pos == |line| {
        return Waiting;
      }
      buf[pos] := line[pos];
      pos := pos + 1;
    }
    assert buf[0..2] == line[0..2];
    var total := FRAME_HEADER_SIZE + FromLE([buf[0], buf[1]]);
    assert [buf[0], buf[1]] == buf[0..2];
    if total > buf.Length {
      return Configured(config);
    }
    while pos < total
      invariant FRAME_HEADER_SIZE <= pos <= total <= buf.Length && pos <= |line| && buf[..pos] == line[..pos]
    {
      if pos == |line| {
        return Waiting;
      }
      buf[pos] := line[pos];
      pos := pos + 1;
    }
    match DecodeFramed(codec, buf[..total])
    case None =>
      return Configured(config);
    case Some((vmm, _)) =>
      config := AdoptDevices(vmm);
      return Configured(config);
  }

  // ----- the round trip -----

  /** A chain name reads back as its own index exactly below 100. */
  lemma NameRoundTrip(i: nat)
    requires 0 < i
    ensures |ChainDeviceName(i)| > 5 && ChainDeviceName(i)[..5] == INPUT
    ensures ParsedIndex(ChainDeviceName(i)[5..]) == i <==> i < 100
  {
    hide DecimalValue, ChainDeviceName;
    NameParts(i);
    var digits := ChainDeviceName(i)[5..];
    if i < 10 {
      OneDigit(digits);
    } else if AllDigits(digits) {
      TwoDigits(digits);
    }
  }

  /** A name is the prefix and one or two bytes, which are the decimal digits of the index below 100. */
  lemma NameParts(i: nat)
    ensures var name := ChainDeviceName(i);
            && |name| == (if i < 10 then 6 else 7) && name[..5] == INPUT
            && (i < 10 ==> name[5..] == [48 + i])
            && (10 <= i < 100 ==> name[5..] == [48 + i / 10, 48 + i % 10])
  {
    assert i < 100 ==> (48 + i / 10 % 256) % 256 == 48 + i / 10;
  }

  lemma OneDigit(digits: seq<byte>)
    requires |digits| == 1 && AllDigits(digits)
    ensures DecimalValue(digits) == digits[0] - 48
  {
    assert DecimalValue(digits[..0]) == 0;
  }

  lemma TwoDigits(digits: seq<byte>)
    requires |digits| == 2 && AllDigits(digits)
    ensures DecimalValue(digits) == 10 * (digits[0] - 48) + digits[1] - 48 < 100
  {
    OneDigit(digits[..1]);
  }

  /** Sector sizes of the second and later inputs, when there are n inputs in all. */
  function ExtraSizes(n: nat, sectorSize: nat): (r: seq<nat>)
    ensures |r| == EXTRA_INPUTS
  {
    seq(EXTRA_INPUTS, k => if k + 1 < n then sectorSize else 0)
  }

  lemma {:induction false} InputsAbsorbed(n: nat, sectorSize: nat)
    requires 1 <= n <= EXTRA_INPUTS + 1
    ensures AbsorbAll(seq(n, i requires 0 <= i => InputEntry(sectorSize, i))) ==
            Partial(DEFAULT_CONFIG.(inputSectorSize := sectorSize, extraSectorSizes := ExtraSizes(n, sectorSize)), n)
  {
    var entries := seq(n, i requires 0 <= i => InputEntry(sectorSize, i));
    assert entries[..n - 1] == seq(n - 1, i requires 0 <= i => InputEntry(sectorSize, i));
    if n == 1 {
      assert AbsorbAll(entries[..0]) == Partial(DEFAULT_CONFIG, 0);
      assert ExtraSizes(1, sectorSize) == DEFAULT_CONFIG.extraSectorSizes;
    } else {
      InputsAbsorbed(n - 1, sectorSize);
      NameRoundTrip(n - 1);
      assert ExtraSizes(n - 1, sectorSize)[n - 2 := sectorSize] == ExtraSizes(n, sectorSize);
    }
  }

  /** The configuration a chain of n inputs and one output is meant to produce in the guest. */
  function Intended(n: nat, sectorSize: nat, outputSectorSize: nat, progressPercent: nat): DeviceConfig {
    DeviceConfig(sectorSize, outputSectorSize, progressPercent, true, n, ExtraSizes(n, sectorSize))
  }

  /**
   Build, frame, send, read: for every chain of 1 to 16 inputs the guest ends up with the intended configuration,
   whatever follows on the line, and while any byte is missing it keeps waiting.
   */
  lemma ChainHandOff(codec: Codec<VmmConfig>, n: nat, sectorSize: nat, outputSectorSize: nat, progressPercent: nat,
                     rest: seq<byte>)
    requires Lawful(codec) && 1 <= n < MAX_DEVICES
    ensures var devices := seq(n, i requires 0 <= i => InputEntry(sectorSize, i)) +
              [DeviceEntry(OUTPUT, outputSectorSize)];
            var framed := EncodeFramed(codec, VmmConfig(devices, progressPercent));
            framed.Some? ==>
              && Receive(codec, framed.value + rest) ==
                 Configured(Intended(n, sectorSize, outputSectorSize, progressPercent))
              && forall k :: 0 < k < |framed.value| ==> Receive(codec, framed.value[..k]) == Waiting
  {
    var inputs := seq(n, i requires 0 <= i => InputEntry(sectorSize, i));
    var devices := inputs + [DeviceEntry(OUTPUT, outputSectorSize)];
    var vmm := VmmConfig(devices, progressPercent);
    InputsAbsorbed(n, sectorSize);
    assert devices[..n] == inputs && devices[n].name == OUTPUT;
    assert RoleOf(OUTPUT) == OutputDevice by { assert OUTPUT[..5] != INPUT by { assert OUTPUT[0] != INPUT[0]; } }
    assert AbsorbAll(devices) == Absorb(AbsorbAll(inputs), devices[n]);
    assert Adopt(vmm) == Intended(n, sectorSize, outputSectorSize, progressPercent);
    if EncodeFramed(codec, vmm).Some? {
      var frame, body := EncodeFramed(codec, vmm).value, codec.encode(vmm).value;
      FrameLength(body, rest);
      FrameRoundTrip(codec, vmm, []);
      assert frame + [] == frame && (frame + rest)[..|frame|] == frame;
      forall k | 0 < k < |frame|
        ensures Receive(codec, frame[..k]) == Waiting
      {
        if k >= 2 {
          assert frame[..k][0..2] == (frame + rest)[0..2];
        }
      }
    }
  }

  /** With 17 or more inputs the output entry is dropped, and the guest runs without an output device. */
  lemma SeventeenInputsLoseTheOutput(sectorSize: nat, progressPercent: nat)
    ensures !Adopt(VmmConfig(seq(MAX_DEVICES, i requires 0 <= i => InputEntry(sectorSize, i)),
              progressPercent)).hasOutput
  {
    var entries := seq(MAX_DEVICES, i requires 0 <= i => InputEntry(sectorSize, i));
    assert entries[..16] == seq(16, i requires 0 <= i => InputEntry(sectorSize, i));
    InputsAbsorbed(16, sectorSize);
    NameRoundTrip(16);
  }

  /** Names as they go over the line. */
  lemma NamesSpelled()
    ensures ChainDeviceName(7) == [105, 110, 112, 117, 116, 55]
    ensures ChainDeviceName(42) == [105, 110, 112, 117, 116, 52, 50]
  {
    assert 42 / 10 == 4 && 42 % 10 == 2;
  }
}
