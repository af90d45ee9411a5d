/** The plain sector store that the driver and the device together are meant to implement. */
module SectorStore {
  import opened Bytes

  /**
   `writable` counts the leading sectors that lie wholly inside the backing file's capacity; `unreadable` sectors cannot
   be read from it, and an `unsynced` one cannot be flushed.
   */
  datatype Disk =
    Disk(sectors: seq<seq<byte>>, writable: nat, unreadable: set<nat>, unsynced: bool, readOnly: bool)

  datatype Request = Read(sector: nat) | Write(sector: nat, data: seq<byte>) | Flush

  datatype Reply = Reply(ok: bool, data: seq<byte>)

  /** A request on which the host file fails, which the host never answers: a write to a partial last sector, say. */
  predicate Unanswerable(disk: Disk, req: Request) {
    match req
    case Read(sector) => sector < |disk.sectors| && sector in disk.unreadable
    case Write(sector, _) => !disk.readOnly && disk.writable <= sector < |disk.sectors|
    case Flush => disk.unsynced
  }

  predicate Accepted(disk: Disk, req: Request) {
    match req
    case Read(sector) => sector < |disk.sectors| && sector !in disk.unreadable
    case Write(sector, _) => !disk.readOnly && sector < |disk.sectors| && sector < disk.writable
    case Flush => !disk.unsynced
  }

  function After(disk: Disk, req: Request): Disk {
    if req.Write? && Accepted(disk, req) then disk.(sectors := disk.sectors[req.sector := req.data]) else disk
  }

  function Answer(disk: Disk, req: Request): Reply {
    Reply(Accepted(disk, req), if req.Read? && Accepted(disk, req) then disk.sectors[req.sector] else [])
  }

  // ----- runs over several disks -----

  datatype Op = Op(device: nat, req: Request)

  predicate InRange(disks: seq<Disk>, ops: seq<Op>) {
    forall k :: 0 <= k < |ops| ==> ops[k].device < |disks|
  }

  /** The disks after a sequence of operations. */
  function Final(disks: seq<Disk>, ops: seq<Op>): (r: seq<Disk>)
    requires InRange(disks, ops)
    ensures |r| == |disks|
  {
    if ops == [] then disks else
    var last := ops[|ops| - 1];
    var before := Final(disks, ops[..|ops| - 1]);
    before[last.device := After(before[last.device], last.req)]
  }

  /** No operation changes which requests can be answered. */
  lemma {:induction false} SameRequestsAnswerable(disks: seq<Disk>, ops: seq<Op>, device: nat, req: Request)
    requires InRange(disks, ops) && device < |disks|
    ensures Unanswerable(Final(disks, ops)[device], req) <==> Unanswerable(disks[device], req)
  {
    if ops != [] {
      SameRequestsAnswerable(disks, ops[..|ops| - 1], device, req);
    }
  }

  /** The answers to a sequence of operations. */
  function Answers(disks: seq<Disk>, ops: seq<Op>): (r: seq<Reply>)
    requires InRange(disks, ops)
    ensures |r| == |ops|
  {
    if ops == [] then [] else
    var last := ops[|ops| - 1];
    var before := Final(disks, ops[..|ops| - 1]);
    Answers(disks, ops[..|ops| - 1]) + [Answer(before[last.device], last.req)]
  }

  lemma NothingDone(disks: seq<Disk>, ops: seq<Op>)
    ensures Final(disks, ops[..0]) == disks && Answers(disks, ops[..0]) == []
  {
  }

  /** One operation more. */
  lemma OneMoreOp(disks: seq<Disk>, ops: seq<Op>, k: nat)
    requires InRange(disks, ops) && k < |ops|
    ensures var before := Final(disks, ops[..k]);
            && Final(disks, ops[..k + 1]) == before[ops[k].device := After(before[ops[k].device], ops[k].req)]
            && Answers(disks, ops[..k + 1]) == Answers(disks, ops[..k]) + [Answer(before[ops[k].device], ops[k].req)]
  {
    hide After, Answer;
    assert ops[..k + 1][..k] == ops[..k];
  }

  /** Reads see the most recent accepted write to that sector of that device, or the initial contents. */
  function LastWritten(disks: seq<Disk>, ops: seq<Op>, device: nat, sector: nat): seq<byte>
    requires InRange(disks, ops) && device < |disks| && sector < |disks[device].sectors|
  {
    if ops == [] then disks[device].sectors[sector] else
    var last := ops[|ops| - 1];
    if last.device == device && last.req.Write? && last.req.sector == sector && Accepted(disks[device], last.req)
    then last.req.data
    else LastWritten(disks, ops[..|ops| - 1], device, sector)
  }

  lemma {:induction false} ReadSeesLastWrite(disks: seq<Disk>, ops: seq<Op>, device: nat, sector: nat)
    requires InRange(disks, ops) && device < |disks| && sector < |disks[device].sectors|
    ensures |Final(disks, ops)[device].sectors| == |disks[device].sectors|
    ensures Final(disks, ops)[device].writable == disks[device].writable
    ensures Final(disks, ops)[device].readOnly == disks[device].readOnly
    ensures Final(disks, ops)[device].sectors[sector] == LastWritten(disks, ops, device, sector)
  {
    if ops != [] {
      var init := ops[..|ops| - 1];
      ReadSeesLastWrite(disks, init, device, sector);
    }
  }
}
