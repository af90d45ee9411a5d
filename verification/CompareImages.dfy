/** The snapshot comparator: chunk by chunk, forgiving differences inside clusters that are free on both sides. */
module CompareImages {
  import opened Bytes
  import opened Options
  import opened FreeClusters

  const CHUNK: nat := 0x10_0000

  /** Cluster size and the clusters that are free in both files; None when the rule cannot be applied. */
  ghost function DeadOf(a: seq<byte>, b: seq<byte>): Option<(nat, set<nat>)> {
    match (FreeOf(a), FreeOf(b))
    case (Some((csA, freeA)), Some((csB, freeB))) => if csA == csB then Some((csA, freeA * freeB)) else None
    case _ => None
  }

  method FindDeadClusters(a: seq<byte>, b: seq<byte>) returns (r: Option<(nat, set<nat>)>)
    ensures r == DeadOf(a, b)
  {
    var freeA := FindFreeClusters(a);
    var freeB := FindFreeClusters(b);
    if freeA.None? || freeB.None? || freeA.value.0 != freeB.value.0 {
      return None;
    }
    return Some((freeA.value.0, freeA.value.1 * freeB.value.1));
  }

  /** Byte p lies in a dead cluster. */
  predicate InDead(dead: Option<(nat, set<nat>)>, p: nat)
    requires dead.Some? ==> dead.value.0 > 0
  {
    dead.Some? && p / dead.value.0 in dead.value.1
  }

  /** A difference that counts. */
  predicate Differs(a: seq<byte>, b: seq<byte>, dead: Option<(nat, set<nat>)>, p: nat)
    requires dead.Some? ==> dead.value.0 > 0
  {
    p < |a| && p < |b| && a[p] != b[p] && !InDead(dead, p)
  }

  datatype Side = Instar | Qemu

  datatype Verdict = Identical | PrefixMismatch(offset: nat, instarByte: byte, qemuByte: byte) | NonzeroTail(side: Side)

  /** A cluster size the walk can return: a power of two from 512 bytes to 2 MiB, so it divides or doubles the chunk. */
  ghost predicate ChunkFriendly(cs: nat) {
    cs > 0 && (cs == 2 * CHUNK || exists m: nat :: Fills(m, cs))
  }

  predicate Fills(m: nat, cs: nat) {
    m * cs == CHUNK
  }

  lemma {:induction false} PowersDivideChunk(bits: nat)
    requires bits <= 21
    ensures ChunkFriendly(Pow2(bits))
  {
    assert Pow2(5) == 32 && Pow2(10) == 1024 && Pow2(15) == 32768 && Pow2(20) == CHUNK && Pow2(21) == 2 * CHUNK;
    if bits < 21 {
      PowersMultiply(20 - bits, bits);
      assert Fills(Pow2(20 - bits), Pow2(bits));
    }
  }

  lemma {:induction false} PowersMultiply(a: nat, b: nat)
    ensures Pow2(a) * Pow2(b) == Pow2(a + b)
  {
    if a > 0 {
      PowersMultiply(a - 1, b);
      MulAssoc(2, Pow2(a - 1), Pow2(b));
    }
  }

  lemma DeadIsChunkFriendly(a: seq<byte>, b: seq<byte>)
    ensures DeadOf(a, b).Some? ==> ChunkFriendly(DeadOf(a, b).value.0)
  {
    if ParseHeader(a).Some? {
      PowersDivideChunk(ParseHeader(a).value.clusterBits);
    }
  }

  /** All bytes of one cluster-sized piece of a chunk lie in one cluster. */
  lemma PieceInOneCluster(cs: nat, q: nat, t: nat, i: nat)
    requires ChunkFriendly(cs) && i < cs && t * cs + i < CHUNK
    ensures (q * CHUNK + t * cs + i) / cs == (q * CHUNK + t * cs) / cs
  {
    if cs == 2 * CHUNK {
      HalfCluster(q, t, i);
    } else {
      var m: nat :| Fills(m, cs);
      var k := q * m + t;
      assert q * CHUNK + t * cs == k * cs by {
        MulAssoc(q, m, cs);
        MulDistrib(q * m, t, cs);
      }
      DivModUnique(k, cs, i);
      DivModUnique(k, cs, 0);
    }
  }

  lemma HalfCluster(q: nat, t: nat, i: nat)
    requires t * (2 * CHUNK) + i < CHUNK
    ensures (q * CHUNK + t * (2 * CHUNK) + i) / (2 * CHUNK) == (q * CHUNK + t * (2 * CHUNK)) / (2 * CHUNK)
  {
    var h, r := q / 2, if q % 2 == 0 then 0 else CHUNK;
    assert t == 0 && q * CHUNK == h * (2 * CHUNK) + r;
    DivModUnique(h, 2 * CHUNK, r + i);
    DivModUnique(h, 2 * CHUNK, r);
  }

  /** First position at which two equally long pieces differ, or their length. */
  method FirstDifference(a: seq<byte>, b: seq<byte>, from: nat, to: nat) returns (p: nat)
    requires from <= to <= |a| && to <= |b|
    ensures from <= p <= to && forall k :: from <= k < p ==> a[k] == b[k]
    ensures p < to ==> a[p] != b[p]
  {
    p := from;
    while p < to && a[p] == b[p]
      invariant from <= p <= to && forall k :: from <= k < p ==> a[k] == b[k]
    {
      p := p + 1;
    }
  }

  ghost predicate NoneBefore(a: seq<byte>, b: seq<byte>, dead: Option<(nat, set<nat>)>, end: nat)
    requires dead.Some? ==> dead.value.0 > 0
  {
    forall p: nat :: p < end ==> !Differs(a, b, dead, p)
  }

  /** The piece size: a cluster if dead clusters are known, else the whole chunk. */
  function Piece(dead: Option<(nat, set<nat>)>): nat {
    if dead.Some? then dead.value.0 else CHUNK
  }

  lemma Friendly(dead: Option<(nat, set<nat>)>)
    requires dead.Some? ==> ChunkFriendly(dead.value.0)
    ensures ChunkFriendly(Piece(dead)) && Piece(dead) > 0
  {
    assert Fills(1, CHUNK);
  }

  /** Within one piece a difference counts or not depending on the one cluster it lies in. */
  lemma PieceDiffers(a: seq<byte>, b: seq<byte>, dead: Option<(nat, set<nat>)>, q: nat, t: nat, p: nat)
    requires ChunkFriendly(Piece(dead)) && Piece(dead) > 0 && p < |a| && p < |b|
    requires var from := q * CHUNK + Times(t, Piece(dead)); from <= p < from + Piece(dead) && p < (q + 1) * CHUNK
    ensures Differs(a, b, dead, p) <==>
            a[p] != b[p] && !(dead.Some? && (q * CHUNK + Times(t, Piece(dead))) / Piece(dead) in dead.value.1)
  {
    hide ChunkFriendly;
    var cs := Piece(dead);
    PieceInOneCluster(cs, q, t, p - q * CHUNK - t * cs);
  }

  /** Goes through a differing chunk cluster by cluster, skipping dead clusters. */
  method SearchChunk(a: seq<byte>, b: seq<byte>, q: nat, n: nat, dead: Option<(nat, set<nat>)>) returns (r: Option<nat>)
    requires n <= CHUNK && q * CHUNK + n <= |a| && q * CHUNK + n <= |b|
    requires dead.Some? ==> ChunkFriendly(dead.value.0)
    ensures r.None? ==> forall p :: q * CHUNK <= p < q * CHUNK + n ==> !Differs(a, b, dead, p)
    ensures r.Some? ==> q * CHUNK <= r.value < q * CHUNK + n && Differs(a, b, dead, r.value)
    ensures r.Some? ==> forall p :: q * CHUNK <= p < r.value ==> !Differs(a, b, dead, p)
  {
    var offset := q * CHUNK;
    var cs := Piece(dead);
    hide ChunkFriendly, Times, Differs;
    Friendly(dead);
    ghost var t := 0;
    var coff := 0;
    TimesStep(0, cs);
    while coff < n
      invariant coff == Times(t, cs)
      invariant forall p :: offset <= p < offset + coff && p < offset + n ==> !Differs(a, b, dead, p)
      decreases n - coff
    {
      var end := if coff + cs < n then coff + cs else n;
      var first := FirstDifference(a, b, offset + coff, offset + end);
      var cluster := (offset + coff) / cs;
      forall p | offset + coff <= p < offset + end
        ensures Differs(a, b, dead, p) <==> a[p] != b[p] && !(dead.Some? && cluster in dead.value.1)
      {
        PieceDiffers(a, b, dead, q, t, p);
      }
      if first < offset + end {
        if !(dead.Some? && cluster in dead.value.1) {
          return Some(first);
        }
      }
      TimesStep(t, cs);
      t := t + 1;
      coff := coff + cs;
    }
    return None;
  }

  predicate ZeroFrom(s: seq<byte>, start: nat) {
    forall p :: start <= p < |s| ==> s[p] == 0
  }

  /** The longer file's tail, read in chunks. */
  method TailIsZero(s: seq<byte>, start: nat) returns (r: bool)
    requires start <= |s|
    ensures r <==> ZeroFrom(s, start)
  {
    var at := start;
    while at < |s|
      invariant start <= at <= |s| && forall p :: start <= p < at ==> s[p] == 0
    {
      var end := if at + CHUNK < |s| then at + CHUNK else |s|;
      var zeros := 0;
      for p := at to end
        invariant zeros == p - at ==> forall k :: at <= k < p ==> s[k] == 0
        invariant zeros <= p - at && (zeros < p - at ==> exists k :: at <= k < p && s[k] != 0)
      {
        if s[p] == 0 {
          zeros := zeros + 1;
        }
      }
      if zeros != end - at {
        return false;
      }
      at := end;
    }
    return true;
  }

  lemma SameChunk(a: seq<byte>, b: seq<byte>, dead: Option<(nat, set<nat>)>, off: nat, n: nat)
    requires dead.Some? ==> dead.value.0 > 0
    requires off + n <= |a| && off + n <= |b| && a[off..off + n] == b[off..off + n]
    ensures forall p :: off <= p < off + n ==> !Differs(a, b, dead, p)
  {
    forall p | off <= p < off + n
      ensures !Differs(a, b, dead, p)
    {
      assert a[off..off + n][p - off] == b[off..off + n][p - off];
    }
  }

  /**
   Identical exactly if the common prefix agrees outside the dead clusters and the longer tail is all zero;
   otherwise the least offending offset of the prefix, or else the side with the non-zero tail.
   */
  method Compare(instar: seq<byte>, qemu: seq<byte>) returns (r: Verdict)
    ensures DeadOf(instar, qemu).Some? ==> DeadOf(instar, qemu).value.0 > 0
    ensures var dead := DeadOf(instar, qemu);
            var common := if |instar| < |qemu| then |instar| else |qemu|;
            var longer := if |instar| > |qemu| then instar else qemu;
            match r
            case Identical => NoneBefore(instar, qemu, dead, common) && ZeroFrom(longer, common)
            case PrefixMismatch(offset, x, y) =>
              Differs(instar, qemu, dead, offset) && x == instar[offset] && y == qemu[offset]
                && NoneBefore(instar, qemu, dead, offset)
            case NonzeroTail(side) =>
              NoneBefore(instar, qemu, dead, common) && !ZeroFrom(longer, common)
                && (side == Instar <==> |instar| > |qemu|)
  {
    hide DeadOf, ChunkFriendly;
    DeadIsChunkFriendly(instar, qemu);
    var common := if |instar| < |qemu| then |instar| else |qemu|;
    var dead: Option<Option<(nat, set<nat>)>> := None;
    ghost var q := 0;
    var offset := 0;
    while offset < common
      invariant offset <= common && (offset < common ==> offset == q * CHUNK)
      invariant dead.Some? ==> dead.value == DeadOf(instar, qemu)
      invariant NoneBefore(instar, qemu, DeadOf(instar, qemu), offset)
    {
      var n := if CHUNK < common - offset then CHUNK else common - offset;
      if instar[offset..offset + n] != qemu[offset..offset + n] {
        if dead.None? {
          var found := FindDeadClusters(instar, qemu);
          dead := Some(found);
        }
        var hit := SearchChunk(instar, qemu, offset / CHUNK, n, dead.value);
        if hit.Some? {
          return PrefixMismatch(hit.value, instar[hit.value], qemu[hit.value]);
        }
      } else {
        SameChunk(instar, qemu, DeadOf(instar, qemu), offset, n);
      }
      offset := offset + n;
      q := q + 1;
    }
    var longer, side := if |instar| > |qemu| then instar else qemu, if |instar| > |qemu| then Instar else Qemu;
    var zero := TailIsZero(longer, common);
    return if zero then Identical else NonzeroTail(side);
  }
}
