/** Every interleaving of the devices' steps keeps the one outstanding request consistent. */
module Exchange {
  import opened Bytes
  import opened Options
  import opened Layout
  import opened BlockDevice
  import opened SectorStore
  import opened Protocol

  /** Device i as it is after initialisation: its queue is the i-th, inside guest memory. */
  predicate Sane(d: Device, i: nat, size: nat) {
    && d.Valid() && InGuest(size)
    && i < MAX_INPUT_DEVICES && d.q == QueueOf(i) && QueueInMemory(d.q, size)
  }

  /** Nothing outstanding: both ring indices agree and the device will find nothing to do. */
  predicate Quiet(m: seq<byte>, d: Device)
    requires QueueInMemory(d.q, |m|)
  {
    var a := AvailIdx(m, d.q);
    && UsedIdx(m, d.q) == a
    && match d.phase
       case Idle => d.lastAvail == a
       case Scanning(target, cursor) => target == a && cursor == a
       case Answered(_, _, _, _) => false
       case Listed(_, _, _) => false
  }

  /** Same device, same file; only its position in the processing routine may differ. */
  predicate SameStore(d: Device, d0: Device) {
    d == d0.(phase := d.phase, lastAvail := d.lastAvail)
  }

  predicate SameGeometry(d: Device, d0: Device) {
    SameStore(d.(backing := d0.backing), d0)
  }

  /** Published but not yet served (idx is the ring index before publication). */
  predicate Waiting(m: seq<byte>, d: Device, idx: nat, req: Request, d0: Device)
    requires d.Valid() && InGuest(|m|) && QueueInMemory(d.q, |m|)
  {
    && AvailIdx(m, d.q) == Next(idx) && UsedIdx(m, d.q) == idx
    && SameStore(d, d0)
    && DmaFilled(m, d.sectorSize, req) && ChainFilled(m, d.q, d.sectorSize, idx, req)
    && match d.phase
       case Idle => d.lastAvail == idx
       case Scanning(target, cursor) => cursor == idx && (target == idx || (target == Next(idx) && d.lastAvail == idx))
       case Answered(_, _, _, _) => false
       case Listed(_, _, _) => false
  }

  /** The sector store's answer is in memory and its effect is in the file. */
  predicate Replied(m: seq<byte>, d: Device, req: Request, d0: Device)
    requires d.Valid() && d0.Valid() && InGuest(|m|)
  {
    var answer := Answer(DiskOf(d0), req);
    && SameGeometry(d, d0)
    && !Unanswerable(DiskOf(d0), req)
    && DiskOf(d) == After(DiskOf(d0), req)
    && m[DATA_ADDR + d.sectorSize] == (if answer.ok then STATUS_OK else STATUS_IOERR)
    && (req.Read? && answer.ok ==> m[DATA_ADDR..DATA_ADDR + d.sectorSize] == answer.data)
  }

  predicate Finished(m: seq<byte>, d: Device, idx: nat, req: Request, d0: Device)
    requires d.Valid() && d0.Valid() && InGuest(|m|) && QueueInMemory(d.q, |m|)
  {
    Replied(m, d, req, d0) && AvailIdx(m, d.q) == Next(idx) && Quiet(m, d)
  }

  /** Served, but the used index does not show it yet. */
  predicate Returning(m: seq<byte>, d: Device, idx: nat, req: Request, d0: Device)
    requires d.Valid() && d0.Valid() && InGuest(|m|) && QueueInMemory(d.q, |m|)
  {
    && Replied(m, d, req, d0)
    && AvailIdx(m, d.q) == Next(idx) && UsedIdx(m, d.q) == idx
    && match d.phase
       case Answered(target, cursor, _, _) => target == Next(idx) && cursor == idx
       case Listed(target, cursor, usedIdx) => target == Next(idx) && cursor == idx && usedIdx == idx
       case Idle => false
       case Scanning(_, _) => false
  }

  predicate InFlight(m: seq<byte>, d: Device, idx: nat, req: Request, d0: Device)
    requires d.Valid() && d0.Valid() && InGuest(|m|) && QueueInMemory(d.q, |m|)
  {
    Waiting(m, d, idx, req, d0) || Returning(m, d, idx, req, d0) || Finished(m, d, idx, req, d0)
  }

  /** Device steps still needed before the used index moves. */
  function StepsLeft(d: Device, idx: nat): nat {
    match d.phase
    case Idle => if d.lastAvail == idx then 4 else 0
    case Scanning(target, cursor) => if cursor != idx then 0 else if target == idx then 5 else 3
    case Answered(_, _, _, _) => 2
    case Listed(_, _, _) => 1
  }

  /** A window away from the patch keeps both ring indices. */
  lemma IndicesKept(m: seq<byte>, m': seq<byte>, q: Queue)
    requires |m| == |m'| && QueueInMemory(q, |m|)
    requires forall a :: q.avail + 2 <= a < q.avail + 4 || q.used + 2 <= a < q.used + 4 ==> m'[a] == m[a]
    ensures AvailIdx(m', q) == AvailIdx(m, q) && UsedIdx(m', q) == UsedIdx(m, q)
  {
    assert m'[q.avail + 2..q.avail + 4] == m[q.avail + 2..q.avail + 4];
    assert m'[q.used + 2..q.used + 4] == m[q.used + 2..q.used + 4];
  }

  /** A device with nothing to do touches neither memory nor its file. */
  lemma QuietStep(m: seq<byte>, d: Device)
    requires d.Valid() && QueueInMemory(d.q, |m|) && Quiet(m, d)
    ensures Step(m, d).0 == m && SameStore(Step(m, d).1, d) && Quiet(m, Step(m, d).1)
  {
  }

  lemma SameStoreSameDisk(d: Device, d0: Device)
    requires SameStore(d, d0) && d.Valid()
    ensures d0.Valid() && DiskOf(d) == DiskOf(d0)
  {
    assert forall s: nat :: Contents(d, s) == Contents(d0, s);
  }

  /** The device's answer changes only the DMA area. */
  lemma AnswerFrame(m: seq<byte>, i: nat, sectorSize: nat, ok: bool, data: seq<byte>)
    requires InGuest(|m|) && sectorSize <= MAX_SECTOR_SIZE && |data| <= sectorSize && i < MAX_INPUT_DEVICES
    ensures var m' := AnsweredMemory(m, sectorSize, ok, data);
            && SameOutside(m, m', i, sectorSize)
            && AvailIdx(m', QueueOf(i)) == AvailIdx(m, QueueOf(i)) && UsedIdx(m', QueueOf(i)) == UsedIdx(m, QueueOf(i))
            && m'[DATA_ADDR + sectorSize] == (if ok then STATUS_OK else STATUS_IOERR)
            && (|data| == sectorSize ==> m'[DATA_ADDR..DATA_ADDR + sectorSize] == data)
  {
    hide LE, FromLE;
    var m' := AnsweredMemory(m, sectorSize, ok, data);
    IndicesKept(m, m', QueueOf(i));
    if |data| == sectorSize {
      SpliceElsewhere(Splice(m, DATA_ADDR, data), DATA_ADDR + sectorSize, [if ok then STATUS_OK else STATUS_IOERR],
        DATA_ADDR, sectorSize);
    }
  }

  lemma ServeStep(m: seq<byte>, d: Device, i: nat, idx: nat, req: Request, d0: Device)
    requires Sane(d, i, |m|) && d0.Valid() && WellSized(req, d.sectorSize) && idx < U16
    requires Waiting(m, d, idx, req, d0) && d.phase == Scanning(Next(idx), idx)
    ensures var (m', d') := Step(m, d);
            && Sane(d', i, |m|) && SameOutside(m, m', i, d.sectorSize)
            && if Unanswerable(DiskOf(d0), req) then Waiting(m', d', idx, req, d0)
               else Returning(m', d', idx, req, d0)
  {
    hide LE, FromLE, ProcessRequest, DiskOf, Splice, DescAt, HeaderAt, ChainDesc, Answer, After, AnsweredMemory,
      Unanswerable;
    ServeChain(m, d, idx, req);
    SameStoreSameDisk(d, d0);
    var s := ProcessRequest(m, d, ChainHead(idx));
    var (m', d') := Step(m, d);
    if !Unanswerable(DiskOf(d0), req) {
      var answer := Answer(DiskOf(d0), req);
      AnswerFrame(m, i, d.sectorSize, answer.ok, answer.data);
      SameStoreSameDisk(d', d.(backing := s.backing));
    }
  }

  lemma ListStep(m: seq<byte>, d: Device, i: nat, idx: nat, req: Request, d0: Device)
    requires Sane(d, i, |m|) && d0.Valid() && idx < U16
    requires Returning(m, d, idx, req, d0) && d.phase.Answered?
    ensures var (m', d') := Step(m, d);
            && Sane(d', i, |m|) && SameOutside(m, m', i, d.sectorSize)
            && Returning(m', d', idx, req, d0) && d'.phase.Listed?
  {
    hide LE, FromLE, DiskOf, Splice;
    var (m', d') := Step(m, d);
    SameStoreSameDisk(d', d);
    assert m'[DATA_ADDR..DATA_ADDR + d.sectorSize] == m[DATA_ADDR..DATA_ADDR + d.sectorSize];
    IndicesKept(m, m', d.q);
  }

  lemma CompleteStep(m: seq<byte>, d: Device, i: nat, idx: nat, req: Request, d0: Device)
    requires Sane(d, i, |m|) && d0.Valid() && idx < U16
    requires Returning(m, d, idx, req, d0) && d.phase.Listed?
    ensures var (m', d') := Step(m, d);
            && Sane(d', i, |m|) && SameOutside(m, m', i, d.sectorSize)
            && Finished(m', d', idx, req, d0)
  {
    hide LE, FromLE, DiskOf, Splice;
    var (m', d') := Step(m, d);
    SameStoreSameDisk(d', d);
    assert m'[DATA_ADDR..DATA_ADDR + d.sectorSize] == m[DATA_ADDR..DATA_ADDR + d.sectorSize];
    SpliceElsewhere(m, d.q.used + 2, LE(2, Next(idx)), d.q.avail + 2, 2);
    WidthLimits();
    GetLEPut(m, d.q.used + 2, 2, Next(idx));
  }

  /** One step of the addressed device, wherever it is. */
  lemma InFlightStep(m: seq<byte>, d: Device, i: nat, idx: nat, req: Request, d0: Device)
    requires Sane(d, i, |m|) && d0.Valid() && WellSized(req, d.sectorSize) && idx < U16
    requires InFlight(m, d, idx, req, d0)
    ensures var (m', d') := Step(m, d);
            && Sane(d', i, |m|) && SameOutside(m, m', i, d.sectorSize)
            && InFlight(m', d', idx, req, d0)
            && (!Unanswerable(DiskOf(d0), req) ==>
                StepsLeft(d', idx) <= if StepsLeft(d, idx) == 0 then 0 else StepsLeft(d, idx) - 1)
  {
    hide LE, FromLE, DiskOf, ProcessRequest;
    var (m', d') := Step(m, d);
    if Waiting(m, d, idx, req, d0) {
      if d.phase == Scanning(Next(idx), idx) {
        ServeStep(m, d, i, idx, req, d0);
      }
    } else if Returning(m, d, idx, req, d0) {
      if d.phase.Answered? {
        ListStep(m, d, i, idx, req, d0);
      } else {
        CompleteStep(m, d, i, idx, req, d0);
      }
    } else {
      QuietStep(m, d);
      SameStoreSameDisk(d', d);
    }
  }

  // ----- several devices over one memory -----

  predicate System(m: seq<byte>, devs: seq<Device>) {
    |devs| <= MAX_INPUT_DEVICES && forall j :: 0 <= j < |devs| ==> Sane(devs[j], j, |m|)
  }

  predicate AllQuiet(m: seq<byte>, devs: seq<Device>)
    requires System(m, devs)
  {
    forall j :: 0 <= j < |devs| ==> Quiet(m, devs[j])
  }

  predicate SameStores(devs: seq<Device>, devs0: seq<Device>) {
    |devs| == |devs0| && forall j :: 0 <= j < |devs| ==> SameStore(devs[j], devs0[j])
  }

  /** One request outstanding on device i, issued when the devices were devs0; every other device is quiet. */
  predicate Outstanding(m: seq<byte>, devs: seq<Device>, i: nat, idx: nat, req: Request, devs0: seq<Device>) {
    && System(m, devs) && System(m, devs0) && |devs| == |devs0| && i < |devs| && idx < U16
    && WellSized(req, devs0[i].sectorSize)
    && InFlight(m, devs[i], idx, req, devs0[i])
    && forall j :: 0 <= j < |devs| && j != i ==> Quiet(m, devs[j]) && SameStore(devs[j], devs0[j])
  }

  lemma StepSane(m: seq<byte>, d: Device, i: nat)
    requires Sane(d, i, |m|)
    ensures Sane(Step(m, d).1, i, |m|)
  {
    hide ProcessRequest, LE, FromLE, Splice;
  }

  /** The devices named by a schedule take one step each, in that order; indices naming no device are skipped. */
  function RunSteps(m: seq<byte>, devs: seq<Device>, schedule: seq<nat>): (r: (seq<byte>, seq<Device>))
    requires System(m, devs)
    ensures System(r.0, r.1) && |r.0| == |m| && |r.1| == |devs|
    decreases |schedule|
  {
    if schedule == [] then (m, devs)
    else if schedule[0] >= |devs| then RunSteps(m, devs, schedule[1..])
    else
      var k := schedule[0];
      StepSane(m, devs[k], k);
      var (m', d') := Step(m, devs[k]);
      RunSteps(m', devs[k := d'], schedule[1..])
  }

  lemma {:induction false} QuietRun(m: seq<byte>, devs: seq<Device>, schedule: seq<nat>)
    requires System(m, devs) && AllQuiet(m, devs)
    ensures var (m', devs') := RunSteps(m, devs, schedule);
            m' == m && AllQuiet(m, devs') && SameStores(devs', devs)
    decreases |schedule|
  {
    if schedule != [] {
      var k := schedule[0];
      if k >= |devs| {
        QuietRun(m, devs, schedule[1..]);
      } else {
        StepSane(m, devs[k], k);
        QuietStep(m, devs[k]);
        QuietRun(m, devs[k := Step(m, devs[k]).1], schedule[1..]);
      }
    }
  }

  /** A request on one device leaves the ring indices of every other device alone. */
  lemma OtherIndicesKept(m: seq<byte>, m': seq<byte>, j: nat, i: nat, sectorSize: nat)
    requires SameOutside(m, m', i, sectorSize) && InGuest(|m|) && sectorSize <= MAX_SECTOR_SIZE
    requires i != j && i < MAX_INPUT_DEVICES && j < MAX_INPUT_DEVICES
    ensures AvailIdx(m', QueueOf(j)) == AvailIdx(m, QueueOf(j)) && UsedIdx(m', QueueOf(j)) == UsedIdx(m, QueueOf(j))
  {
    hide FromLE;
    if i < j {
      assert (i + 1) * VQ_SIZE_PER_DEVICE <= j * VQ_SIZE_PER_DEVICE;
    } else {
      assert (j + 1) * VQ_SIZE_PER_DEVICE <= i * VQ_SIZE_PER_DEVICE;
    }
    IndicesKept(m, m', QueueOf(j));
  }

  /** Any device may step at any time: the exchange stays consistent, and only the addressed device's area changes. */
  lemma OutstandingStep(m: seq<byte>, devs: seq<Device>, i: nat, idx: nat, req: Request, devs0: seq<Device>, k: nat)
    requires Outstanding(m, devs, i, idx, req, devs0) && k < |devs|
    ensures var (m', d') := Step(m, devs[k]);
            && Outstanding(m', devs[k := d'], i, idx, req, devs0)
            && SameOutside(m, m', i, devs0[i].sectorSize)
            && (!Unanswerable(DiskOf(devs0[i]), req) ==>
                  StepsLeft(devs[k := d'][i], idx) <=
                  if k == i && StepsLeft(devs[i], idx) > 0 then StepsLeft(devs[i], idx) - 1
                    else StepsLeft(devs[i], idx))
  {
    hide Step, InFlight, DiskOf, StepsLeft, SameOutside, AvailIdx, UsedIdx;
    var (m', d') := Step(m, devs[k]);
    if k == i {
      InFlightGeometry(m, devs[i], idx, req, devs0[i]);
      InFlightStep(m, devs[i], i, idx, req, devs0[i]);
      forall j | 0 <= j < |devs| && j != i
        ensures Quiet(m', devs[j])
      {
        OtherIndicesKept(m, m', j, i, devs0[i].sectorSize);
      }
    } else {
      StepSane(m, devs[k], k);
      QuietStep(m, devs[k]);
      SameOutsideRefl(m, i, devs0[i].sectorSize);
    }
  }

  lemma SameOutsideRefl(m: seq<byte>, i: nat, sectorSize: nat)
    ensures SameOutside(m, m, i, sectorSize)
  {
  }

  lemma InFlightGeometry(m: seq<byte>, d: Device, idx: nat, req: Request, d0: Device)
    requires d.Valid() && d0.Valid() && InGuest(|m|) && QueueInMemory(d.q, |m|) && InFlight(m, d, idx, req, d0)
    ensures SameGeometry(d, d0)
  {
  }

  function CountOf(schedule: seq<nat>, i: nat): nat {
    if schedule == [] then 0 else (if schedule[0] == i then 1 else 0) + CountOf(schedule[1..], i)
  }

  /** Every interleaving, and how many steps of the addressed device suffice. */
  lemma {:induction false} OutstandingRun(m: seq<byte>, devs: seq<Device>, i: nat, idx: nat, req: Request,
                                          devs0: seq<Device>, schedule: seq<nat>)
    requires Outstanding(m, devs, i, idx, req, devs0)
    ensures var (m', devs') := RunSteps(m, devs, schedule);
            && Outstanding(m', devs', i, idx, req, devs0)
            && SameOutside(m, m', i, devs0[i].sectorSize)
            && (!Unanswerable(DiskOf(devs0[i]), req) ==>
                  StepsLeft(devs'[i], idx) == 0
                    || StepsLeft(devs'[i], idx) + CountOf(schedule, i) <= StepsLeft(devs[i], idx))
    decreases |schedule|
  {
    hide Step, InFlight, Quiet, StepsLeft, DiskOf, SameOutside;
    if schedule == [] {
      SameOutsideRefl(m, i, devs0[i].sectorSize);
    } else {
      var k := schedule[0];
      if k >= |devs| {
        OutstandingRun(m, devs, i, idx, req, devs0, schedule[1..]);
      } else {
        OutstandingStep(m, devs, i, idx, req, devs0, k);
        var (m', d') := Step(m, devs[k]);
        OutstandingRun(m', devs[k := d'], i, idx, req, devs0, schedule[1..]);
        SameOutsideTrans(m, m', RunSteps(m, devs, schedule).0, i, devs0[i].sectorSize);
      }
    }
  }

  lemma SameOutsideTrans(m: seq<byte>, m': seq<byte>, m'': seq<byte>, i: nat, sectorSize: nat)
    requires SameOutside(m, m', i, sectorSize) && SameOutside(m', m'', i, sectorSize)
    ensures SameOutside(m, m'', i, sectorSize)
  {
  }

  // ----- issuing a request -----

  /** The ring index bytes of every queue lie outside what is written before publication. */
  lemma StayQuiet(m: seq<byte>, m': seq<byte>, devs: seq<Device>)
    requires System(m, devs) && AllQuiet(m, devs) && |m'| == |m|
    requires forall j, a ::
               0 <= j < |devs| &&
               (devs[j].q.avail + 2 <= a < devs[j].q.avail + 4 || devs[j].q.used + 2 <= a < devs[j].q.used + 4) ==>
                 m'[a] == m[a]
    ensures System(m', devs) && AllQuiet(m', devs)
    ensures forall j :: 0 <= j < |devs| ==> AvailIdx(m', devs[j].q) == AvailIdx(m, devs[j].q)
  {
    hide FromLE;
    forall j | 0 <= j < |devs|
      ensures Quiet(m', devs[j]) && AvailIdx(m', devs[j].q) == AvailIdx(m, devs[j].q)
    {
      IndicesKept(m, m', devs[j].q);
    }
  }

  lemma FillDmaQuiet(m: seq<byte>, devs: seq<Device>, i: nat, req: Request)
    requires System(m, devs) && AllQuiet(m, devs) && i < |devs| && WellSized(req, devs[i].sectorSize)
    ensures var m' := FillDma(m, devs[i].sectorSize, req);
            && System(m', devs) && AllQuiet(m', devs)
            && (forall j :: 0 <= j < |devs| ==> AvailIdx(m', devs[j].q) == AvailIdx(m, devs[j].q))
            && SameOutside(m, m', i, devs[i].sectorSize)
            && DmaFilled(m', devs[i].sectorSize, req)
  {
    hide FillDma, DmaFilled, FromLE;
    FillDmaCorrect(m, devs[i].sectorSize, req);
    StayQuiet(m, FillDma(m, devs[i].sectorSize, req), devs);
  }

  lemma FillQueueQuiet(m: seq<byte>, devs: seq<Device>, i: nat, idx: nat, req: Request)
    requires System(m, devs) && AllQuiet(m, devs) && i < |devs| && DmaFilled(m, devs[i].sectorSize, req)
    ensures var m' := FillQueue(m, devs[i].q, devs[i].sectorSize, idx, req);
            && System(m', devs) && AllQuiet(m', devs)
            && (forall j :: 0 <= j < |devs| ==> AvailIdx(m', devs[j].q) == AvailIdx(m, devs[j].q))
            && SameOutside(m, m', i, devs[i].sectorSize)
            && DmaFilled(m', devs[i].sectorSize, req)
            && ChainFilled(m', devs[i].q, devs[i].sectorSize, idx, req)
  {
    hide FillQueue, ChainFilled, FromLE;
    var q := devs[i].q;
    var m' := FillQueue(m, q, devs[i].sectorSize, idx, req);
    FillQueueChain(m, q, devs[i].sectorSize, idx, req);
    forall a | 0 <= a < |m| && !(q.desc <= a < q.desc + 16 * QUEUE_SIZE)
      && !(q.avail + 4 <= a < q.avail + 4 + 2 * QUEUE_SIZE)
      ensures m'[a] == m[a]
    {
      FillQueueFrame(m, q, devs[i].sectorSize, idx, req, a);
    }
    StayQuiet(m, m', devs);
    assert m'[DMA_POOL_BASE..DMA_POOL_BASE + 4] == m[DMA_POOL_BASE..DMA_POOL_BASE + 4];
    assert m'[DMA_POOL_BASE + 8..DMA_POOL_BASE + 16] == m[DMA_POOL_BASE + 8..DMA_POOL_BASE + 16];
    assert m'[DATA_ADDR..DATA_ADDR + devs[i].sectorSize] == m[DATA_ADDR..DATA_ADDR + devs[i].sectorSize];
  }

  /** Publishing the filled chain makes it the one outstanding request. */
  lemma PublishRequest(m: seq<byte>, devs: seq<Device>, i: nat, req: Request)
    requires System(m, devs) && AllQuiet(m, devs) && i < |devs| && WellSized(req, devs[i].sectorSize)
    requires DmaFilled(m, devs[i].sectorSize, req)
    requires ChainFilled(m, devs[i].q, devs[i].sectorSize, AvailIdx(m, devs[i].q), req)
    requires AvailIdx(m, devs[i].q) < U16
    ensures var idx := AvailIdx(m, devs[i].q);
            var m' := Publish(m, devs[i].q, idx);
            Outstanding(m', devs, i, idx, req, devs) && SameOutside(m, m', i, devs[i].sectorSize)
  {
    hide FromLE, LE, Splice, DescAt, HeaderAt, ChainDesc;
    var q := devs[i].q;
    var idx := AvailIdx(m, q);
    var m' := Publish(m, q, idx);
    WidthLimits();
    GetLEPut(m, q.avail + 2, 2, Next(idx));
    SpliceElsewhere(m, q.avail + 2, LE(2, Next(idx)), q.used + 2, 2);
    assert SameOutside(m, m', i, devs[i].sectorSize);
    forall j | 0 <= j < |devs| && j != i
      ensures Quiet(m', devs[j])
    {
      OtherIndicesKept(m, m', j, i, devs[i].sectorSize);
    }
    PublishKeepsChain(m, devs[i], i, idx, req);
  }

  lemma PublishKeepsChain(m: seq<byte>, d: Device, i: nat, idx: nat, req: Request)
    requires Sane(d, i, |m|) && DmaFilled(m, d.sectorSize, req) && ChainFilled(m, d.q, d.sectorSize, idx, req)
    ensures var m' := Publish(m, d.q, idx);
            DmaFilled(m', d.sectorSize, req) && ChainFilled(m', d.q, d.sectorSize, idx, req)
  {
    hide FromLE, LE, Splice, DescAt, ChainDesc;
    var q := d.q;
    var off, t := q.avail + 2, LE(2, Next(idx));
    var head := ChainHead(idx);
    DescElsewhere(m, off, t, q.desc, head);
    DescElsewhere(m, off, t, q.desc, head + 1);
    DescElsewhere(m, off, t, q.desc, head + 2);
    SpliceElsewhere(m, off, t, q.avail + 4 + 2 * (idx % QUEUE_SIZE), 2);
    SpliceElsewhere(m, off, t, DMA_POOL_BASE, 4);
    SpliceElsewhere(m, off, t, DMA_POOL_BASE + 8, 8);
    SpliceElsewhere(m, off, t, DATA_ADDR, d.sectorSize);
  }

  /** The poll: the used index equals the published one exactly when the request is finished. */
  lemma UsedIndexTells(m: seq<byte>, devs: seq<Device>, i: nat, idx: nat, req: Request, devs0: seq<Device>)
    requires Outstanding(m, devs, i, idx, req, devs0)
    ensures UsedIdx(m, devs[i].q) == Next(idx) <==> Finished(m, devs[i], idx, req, devs0[i])
    ensures UsedIdx(m, devs[i].q) == Next(idx) ==> AllQuiet(m, devs) && !Unanswerable(DiskOf(devs0[i]), req)
    ensures StepsLeft(devs[i], idx) == 0 ==> UsedIdx(m, devs[i].q) == Next(idx)
    ensures SameGeometry(devs[i], devs0[i])
  {
  }
}
