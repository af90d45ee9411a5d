/** Start-up of the guest core: which devices are initialised, and at which index. */
module Placement {
  import opened Layout
  import opened Options

  const EXTRA_INPUTS: nat := 15

  /** What the guest learnt from the VMM about its devices. */
  datatype DeviceConfig = DeviceConfig(
    inputSectorSize: nat, outputSectorSize: nat, progressPercent: nat,
    hasOutput: bool, inputCount: nat, extraSectorSizes: seq<nat>)
  {
    predicate WellFormed() { |extraSectorSizes| == EXTRA_INPUTS }
  }

  /** An initialised block device: its index fixes its registers and its queue. */
  datatype Slot = Slot(index: nat, sectorSize: nat)

  datatype Outcome =
    | Halted
    | Panicked  // an input beyond the fifteen extra sector sizes
    | Ready(inputs: seq<Option<Slot>>, inputCount: nat, output: Option<Slot>)

  /** Whether chain device i is initialised, given that all before it were. */
  predicate Joins(config: DeviceConfig, probe: nat -> bool, i: nat)
    requires config.WellFormed()
  {
    i < config.inputCount && 0 < i <= EXTRA_INPUTS && config.extraSectorSizes[i - 1] != 0 && probe(i)
  }

  predicate AllJoin(config: DeviceConfig, probe: nat -> bool, n: nat)
    requires config.WellFormed()
  {
    forall i :: 1 <= i < n ==> Joins(config, probe, i)
  }

  /** n is the number of inputs that start: the first index at which the chain stops. */
  predicate Stops(config: DeviceConfig, probe: nat -> bool, n: nat)
    requires config.WellFormed()
  {
    1 <= n && AllJoin(config, probe, n) && !Joins(config, probe, n)
  }

  /**
   `probe(i)` tells whether the device at index i answers as a block device; `probeOutput` likewise for the output.
   */
  method Start(config: DeviceConfig, probe: nat -> bool, probeOutput: nat -> bool) returns (r: Outcome)
    requires config.WellFormed()
    ensures r.Ready? ==>
              && |r.inputs| == MAX_INPUT_DEVICES && 1 <= r.inputCount <= MAX_INPUT_DEVICES
              && probe(0) && Stops(config, probe, r.inputCount)
              && (forall i :: 0 <= i < MAX_INPUT_DEVICES ==>
                    r.inputs[i] == if i >= r.inputCount then None
                                   else Some(Slot(i, if i == 0 then config.inputSectorSize
                                     else config.extraSectorSizes[i - 1])))
              && r.output == if config.hasOutput then Some(Slot(r.inputCount, config.outputSectorSize)) else None
    ensures r.Ready? && config.hasOutput ==> r.inputCount < MAX_INPUT_DEVICES && probeOutput(r.inputCount)
    ensures r.Panicked? <==>
              probe(0) && config.inputCount > MAX_INPUT_DEVICES && AllJoin(config, probe, MAX_INPUT_DEVICES)
    ensures r.Halted? <==>
              || !probe(0)
              || (!r.Panicked? && config.hasOutput
                  && exists n: nat :: Stops(config, probe, n) && (n >= MAX_INPUT_DEVICES || !probeOutput(n)))
  {
    var devices := new Option<Slot>[MAX_INPUT_DEVICES](_ => None);
    if !probe(0) {
      return Halted;
    }
    devices[0] := Some(Slot(0, config.inputSectorSize));
    var active := 1;
    var i := 1;
    while i < config.inputCount
      invariant 1 <= i == active <= MAX_INPUT_DEVICES && AllJoin(config, probe, i)
      invariant forall k :: 0 <= k < MAX_INPUT_DEVICES ==>
                  devices[k] == if k >= i then None
                                else Some(Slot(k, if k == 0 then config.inputSectorSize
                                  else config.extraSectorSizes[k - 1]))
    {
      if i > EXTRA_INPUTS {
        return Panicked;
      }
      var sectorSize := config.extraSectorSizes[i - 1];
      if sectorSize == 0 {
        break;
      }
      if !probe(i) {
        break;
      }
      devices[i] := Some(Slot(i, sectorSize));
      active := active + 1;
      i := i + 1;
    }
    assert Stops(config, probe, active);
    assert forall n: nat :: Stops(config, probe, n) ==> n == active;
    var output := None;
    if config.hasOutput {
      if active >= MAX_INPUT_DEVICES || !probeOutput(active) {
        return Halted;
      }
      output := Some(Slot(active, config.outputSectorSize));
    }
    return Ready(devices[..], active, output);
  }

  /** All initialised devices, inputs first. */
  function Placed(r: Outcome): seq<Slot>
    requires r.Ready? && |r.inputs| == MAX_INPUT_DEVICES && r.inputCount <= MAX_INPUT_DEVICES
    requires forall i :: 0 <= i < r.inputCount ==> r.inputs[i].Some?
  {
    seq(r.inputCount, i requires 0 <= i < r.inputCount => r.inputs[i].value) +
    if r.output.Some? then [r.output.value] else []
  }

  /**
   Runs the start-up and states what the rest of the guest relies on: the call table's index check admits only
   initialised devices, and no two of the placed devices' rings meet each other or the DMA area.
   */
  method StartAndPlace(config: DeviceConfig, probe: nat -> bool, probeOutput: nat -> bool) returns (r: Outcome)
    requires config.WellFormed()
    ensures r.Ready? ==>
              && |r.inputs| == MAX_INPUT_DEVICES && r.inputCount <= MAX_INPUT_DEVICES
              && forall i :: 0 <= i < MAX_INPUT_DEVICES ==> (i < r.inputCount <==> r.inputs[i].Some?)
    ensures r.Ready? ==>
              forall a, b, p, q ::
                0 <= a < |Placed(r)| && 0 <= b < |Placed(r)| && 0 <= p < 3 && 0 <= q < 3 && (a, p) != (b, q) ==>
                && Disjoint(Parts(QueueOf(Placed(r)[a].index))[p], Parts(QueueOf(Placed(r)[b].index))[q])
                && Parts(QueueOf(Placed(r)[a].index))[p].end <= DMA_POOL_BASE
    ensures r.Ready? && config.hasOutput ==>
              r.output.Some? && (r.output.value.index == config.inputCount <==>
                config.inputCount > 0 && AllJoin(config, probe, config.inputCount))
  {
    r := Start(config, probe, probeOutput);
    if r.Ready? {
      var placed := Placed(r);
      assert forall a :: 0 <= a < |placed| ==> placed[a].index == a && a < MAX_INPUT_DEVICES;
      forall a, b, p, q | 0 <= a < |placed| && 0 <= b < |placed| && 0 <= p < 3 && 0 <= q < 3 && (a, p) != (b, q)
        ensures Disjoint(Parts(QueueOf(placed[a].index))[p], Parts(QueueOf(placed[b].index))[q])
        ensures Parts(QueueOf(placed[a].index))[p].end <= DMA_POOL_BASE
      {
        QueuesDisjoint(a, p, b, q, MAX_SECTOR_SIZE);
      }
      if config.hasOutput && config.inputCount > 0 {
        assert !Joins(config, probe, config.inputCount);
      }
    }
  }
}
