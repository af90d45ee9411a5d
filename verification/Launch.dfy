/** From the VMM's list of disks to the last answer: configuration, hand-off, placement, initialisation and requests. */
module Launch {
  import opened Bytes
  import opened Options
  import opened Layout
  import opened SectorStore
  import opened BlockDevice
  import opened Protocol
  import opened Driver
  import opened Framing
  import opened HandOff
  import opened Placement
  import Boot

  /** A chain of inputs with one sector size, and an output behind them. */
  predicate Chain(inputs: seq<Boot.Config>, output: Boot.Config, sectorSize: nat) {
    && 1 <= |inputs| <= MAX_INPUT_DEVICES && output.Valid()
    && forall i :: 0 <= i < |inputs| ==> inputs[i].Valid() && inputs[i].sectorSize == sectorSize
  }

  /** What the VMM tells the guest. */
  function Told(n: nat, sectorSize: nat, outputSectorSize: nat, progress: nat): VmmConfig {
    VmmConfig(seq(n, i requires 0 <= i => InputEntry(sectorSize, i)) + [DeviceEntry(OUTPUT, outputSectorSize)],
      progress)
  }

  /** Which indices answer as inputs. */
  function Answering(n: nat): nat -> bool {
    (i: nat) => i < n
  }

  /** The chain stops behind its last input. */
  lemma StopsBehindInputs(n: nat, sectorSize: nat, outputSectorSize: nat, progress: nat)
    requires 1 <= n <= MAX_INPUT_DEVICES && sectorSize > 0
    ensures var config := Intended(n, sectorSize, outputSectorSize, progress);
            config.WellFormed() && Stops(config, Answering(n), n) && forall m: nat :: Stops(config, Answering(n), m) ==>
              m == n
  {
    var config, probe := Intended(n, sectorSize, outputSectorSize, progress), Answering(n);
    assert forall i :: 1 <= i < n ==> Joins(config, probe, i);
    assert !Joins(config, probe, n);
  }

  /**
   The whole way: the VMM's configuration is built, framed and sent, with anything behind it on the line; the guest
   reads it, places its devices and initialises them; then any requests run under any schedule. The guest comes up
   exactly if the chain leaves an index for the output, its devices are then the configured ones in their order, and the
   answers are those of the configured disks up to the first time-out.
   */
  method LaunchAndRun(codec: Codec<VmmConfig>, inputs: seq<Boot.Config>, output: Boot.Config, sectorSize: nat,
                      progress: nat, rest: seq<byte>, ops: seq<Op>, schedules: nat -> Schedule)
    returns (up: bool, replies: seq<Reply>, timedOut: bool)
    requires Framing.Lawful(codec) && Chain(inputs, output, sectorSize)
    requires EncodeFramed(codec, Told(|inputs|, sectorSize, output.sectorSize, progress)).Some?
    requires forall k :: 0 <= k < |ops| ==>
               ops[k].device <= |inputs| && WellSized(ops[k].req, (inputs + [output])[ops[k].device].sectorSize)
    ensures up <==> |inputs| < MAX_INPUT_DEVICES
    ensures up ==>
              var disks := Boot.Configured(inputs + [output]);
              && |replies| <= |ops| && (!timedOut ==> |replies| == |ops|)
              && InRange(disks, ops) && replies == Answers(disks, ops[..|replies|])
              && AllAnswerable(disks, ops, |replies|)
              && (timedOut ==> |replies| < |ops| && Excused(disks, ops, schedules, |replies|))
  {
    hide Receive, Answers, WellSized, Excused, AllAnswerable, BlockDevice.Device.Valid;
    var n := |inputs|;
    var told := ConfigChainWithOutput(sectorSize, output.sectorSize, n, progress);
    assert told == Told(n, sectorSize, output.sectorSize, progress);
    var frame := EncodeFramed(codec, told).value;
    ChainHandOff(codec, n, sectorSize, output.sectorSize, progress, rest);
    var arrival := ReadConfig(codec, frame + rest);
    var config := arrival.config;
    SectorSizePositive(inputs[0]);
    StopsBehindInputs(n, sectorSize, output.sectorSize, progress);
    var placed := Start(config, Answering(n), i => i == n);
    if !placed.Ready? {
      return false, [], false;
    }
    var slots := Placed(placed);
    var configs := seq(|slots|, k requires 0 <= k < |slots| => if k < n then inputs[k] else output);
    assert |slots| == n + 1 && forall k :: 0 <= k <= n ==> slots[k] == Slot(k, configs[k].sectorSize);
    assert configs == inputs + [output];
    up := true;
    replies, timedOut := Boot.BootAndRun(configs, ops, schedules);
  }

  lemma SectorSizePositive(c: Boot.Config)
    requires c.Valid()
    ensures c.sectorSize > 0
  {
  }
}
