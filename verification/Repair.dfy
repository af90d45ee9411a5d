/** The repair planners over one staged refcount block: reclaim leaks, count references, correct counts. */
module Repair {
  import opened Bytes
  import opened Options
  import opened RefcountBlock

  datatype Error = Unsupported | MisalignedAccess | AmbiguousCorruption

  datatype Result<+T> = Ok(value: T) | Err(error: Error)

  /** An entry can be read and set exactly when its width is known and it lies inside the block. */
  function Access(len: nat, bits: nat, idx: nat): Result<()> {
    if !Supported(bits) then Err(Unsupported)
    else if idx >= Capacity(len, bits) then Err(MisalignedAccess)
    else Ok(())
  }

  method SetRefcount(block: array<byte>, bits: nat, idx: nat, value: nat) returns (r: Result<()>)
    modifies block
    ensures r == Access(block.Length, bits, idx)
    ensures block[..] == if r.Ok? then WithEntry(old(block[..]), bits, idx, value) else old(block[..])
  {
    if !Supported(bits) {
      return Err(Unsupported);
    }
    EntryInside(block.Length, bits, idx);
    var at := Offset(bits, idx);
    if at + Span(bits) > block.Length {
      return Err(MisalignedAccess);
    }
    if SubWidth(bits) {
      WithFieldIsByte(block[at], bits, Position(bits, idx), Stored(bits, value));
      block[at] := WithField(block[at], bits, Position(bits, idx), Stored(bits, value));
    } else {
      Store(block, at, BE(Span(bits), value));
    }
    return Ok(());
  }

  // ----- reclaiming leaks -----

  predicate Leaked(block: seq<byte>, bits: nat, referenced: nat -> bool, idx: nat)
    requires Supported(bits) && idx < Capacity(|block|, bits)
  {
    Entry(block, bits, idx) > 0 && !referenced(idx)
  }

  /** The block after the first n entries were visited. */
  function Reclaimed(block: seq<byte>, bits: nat, referenced: nat -> bool, n: nat): (r: seq<byte>)
    requires Supported(bits) && n <= Capacity(|block|, bits)
    ensures |r| == |block|
  {
    if n == 0 then block else
    var b := Reclaimed(block, bits, referenced, n - 1);
    if Leaked(b, bits, referenced, n - 1) then WithEntry(b, bits, n - 1, 0) else b
  }

  function LeakCount(block: seq<byte>, bits: nat, referenced: nat -> bool, n: nat): nat
    requires Supported(bits) && n <= Capacity(|block|, bits)
  {
    if n == 0 then 0
    else LeakCount(block, bits, referenced, n - 1) + if Leaked(block, bits, referenced, n - 1) then 1 else 0
  }

  /** Exactly the leaked entries become zero. */
  lemma {:induction false} ReclaimedEntry(block: seq<byte>, bits: nat, referenced: nat -> bool, n: nat, j: nat)
    requires Supported(bits) && n <= Capacity(|block|, bits) && j < Capacity(|block|, bits)
    ensures Entry(Reclaimed(block, bits, referenced, n), bits, j) ==
            if j < n && !referenced(j) then 0 else Entry(block, bits, j)
  {
    hide Entry, WithEntry, Supported, Capacity, Values, Stored;
    if n > 0 {
      var b := Reclaimed(block, bits, referenced, n - 1);
      ReclaimedEntry(block, bits, referenced, n - 1, j);
      if Leaked(b, bits, referenced, n - 1) {
        EntryOfWith(b, bits, n - 1, 0, j);
      }
    }
  }

  /** Entries past the first out-of-range one are never reached; those before it have been dealt with. */
  method ReclaimLeaks(block: array<byte>, entries: nat, bits: nat, referenced: nat -> bool) returns (r: Result<nat>)
    modifies block
    ensures !Supported(bits) ==> block[..] == old(block[..]) && r == if entries == 0 then Ok(0) else Err(Unsupported)
    ensures Supported(bits) ==>
              var n := if entries <= Capacity(block.Length, bits) then entries else Capacity(block.Length, bits);
              && block[..] == Reclaimed(old(block[..]), bits, referenced, n)
              && r == if n == entries then Ok(LeakCount(old(block[..]), bits, referenced, n)) else Err(MisalignedAccess)
  {
    hide Entry, WithEntry, Capacity;
    ghost var before := block[..];
    var reclaimed := 0;
    var idx := 0;
    while idx < entries
      invariant idx <= entries && (!Supported(bits) ==> idx == 0 && block[..] == before && reclaimed == 0)
      invariant Supported(bits) ==> idx <= Capacity(block.Length, bits)
      invariant Supported(bits) ==>
                block[..] == Reclaimed(before, bits, referenced, idx)
                  && reclaimed == LeakCount(before, bits, referenced, idx)
    {
      var access := Access(block.Length, bits, idx);
      if access.Err? {
        return Err(access.error);
      }
      ReclaimedEntry(before, bits, referenced, idx, idx);
      if Leaked(block[..], bits, referenced, idx) {
        var done := SetRefcount(block, bits, idx, 0);
        reclaimed := reclaimed + 1;
      }
      idx := idx + 1;
    }
    return Ok(reclaimed);
  }

  /** A second reclamation finds nothing and changes no byte. */
  lemma {:induction false} SecondReclamation(block: seq<byte>, bits: nat, referenced: nat -> bool, n: nat, k: nat)
    requires Supported(bits) && k <= n <= Capacity(|block|, bits)
    ensures var b := Reclaimed(block, bits, referenced, n);
            Reclaimed(b, bits, referenced, k) == b && LeakCount(b, bits, referenced, k) == 0
  {
    hide Entry, WithEntry, Capacity;
    if k > 0 {
      SecondReclamation(block, bits, referenced, n, k - 1);
      ReclaimedEntry(block, bits, referenced, n, k - 1);
    }
  }

  /** Nothing counted, nothing written. */
  lemma {:induction false} NothingReclaimed(block: seq<byte>, bits: nat, referenced: nat -> bool, n: nat)
    requires Supported(bits) && n <= Capacity(|block|, bits) && LeakCount(block, bits, referenced, n) == 0
    ensures Reclaimed(block, bits, referenced, n) == block
  {
    hide Entry, WithEntry, Capacity;
    if n > 0 {
      NothingReclaimed(block, bits, referenced, n - 1);
    }
  }

  // ----- correcting counts -----

  datatype Tally = Tally(raised: nat, lowered: nat, freed: nat)

  const NOTHING: Tally := Tally(0, 0, 0)

  function Change(t: Tally, want: nat, have: nat): Tally {
    if want == have then t
    else if want > have then t.(raised := t.raised + 1)
    else if want > 0 then t.(lowered := t.lowered + 1)
    else t.(freed := t.freed + 1)
  }

  /** The block after the first n entries were compared with their computed counts; uncovered entries are skipped. */
  function Corrected(block: seq<byte>, bits: nat, computed: nat -> Option<nat>, n: nat): (r: seq<byte>)
    requires Supported(bits) && n <= Capacity(|block|, bits)
    ensures |r| == |block|
  {
    if n == 0 then block else
    var b := Corrected(block, bits, computed, n - 1);
    match computed(n - 1)
    case None => b
    case Some(want) => if want != Entry(b, bits, n - 1) then WithEntry(b, bits, n - 1, want) else b
  }

  function Changes(block: seq<byte>, bits: nat, computed: nat -> Option<nat>, n: nat): Tally
    requires Supported(bits) && n <= Capacity(|block|, bits)
  {
    if n == 0 then NOTHING else
    var t := Changes(block, bits, computed, n - 1);
    match computed(n - 1)
    case None => t
    case Some(want) => Change(t, want, Entry(block, bits, n - 1))
  }

  /** Every covered entry ends up holding its computed count (as far as the width can), every other one is untouched. */
  lemma {:induction false} CorrectedEntry(block: seq<byte>, bits: nat, computed: nat -> Option<nat>, n: nat, j: nat)
    requires Supported(bits) && n <= Capacity(|block|, bits) && j < Capacity(|block|, bits)
    ensures Entry(Corrected(block, bits, computed, n), bits, j) ==
            if j < n && computed(j).Some? then Stored(bits, computed(j).value) else Entry(block, bits, j)
  {
    hide Entry, WithEntry, Capacity, Stored;
    if n > 0 {
      var b := Corrected(block, bits, computed, n - 1);
      CorrectedEntry(block, bits, computed, n - 1, j);
      if computed(n - 1).Some? {
        var want := computed(n - 1).value;
        EntryOfWith(b, bits, n - 1, want, j);
        EntryFits(b, bits, n - 1);
      }
    }
  }

  lemma {:induction false} NothingCorrected(block: seq<byte>, bits: nat, computed: nat -> Option<nat>, n: nat)
    requires Supported(bits) && n <= Capacity(|block|, bits) && Changes(block, bits, computed, n) == NOTHING
    ensures Corrected(block, bits, computed, n) == block
  {
    hide Entry, WithEntry, Capacity;
    if n > 0 {
      NothingCorrected(block, bits, computed, n - 1);
    }
  }

  predicate Covers(computed: nat -> Option<nat>, idx: nat) {
    computed(idx).Some?
  }

  method CorrectRefcounts(block: array<byte>, entries: nat, bits: nat,
                          computed: nat -> Option<nat>) returns (r: Result<Tally>)
    modifies block
    ensures r.Ok? && Supported(bits) ==>
              && (forall idx :: Capacity(block.Length, bits) <= idx < entries ==> !Covers(computed, idx))
              && var n := if entries <= Capacity(block.Length, bits) then entries else Capacity(block.Length, bits);
                 block[..] == Corrected(old(block[..]), bits, computed, n)
                   && r.value == Changes(old(block[..]), bits, computed, n)
    ensures r.Err? && Supported(bits) ==>
              && r.error == MisalignedAccess
              && block[..] == Corrected(old(block[..]), bits, computed, Capacity(block.Length, bits))
              && exists idx :: Capacity(block.Length, bits) <= idx < entries && Covers(computed, idx)
    ensures !Supported(bits) ==> block[..] == old(block[..])
    ensures !Supported(bits) ==> (r.Err? <==> exists idx :: 0 <= idx < entries && Covers(computed, idx))
  {
    hide Entry, WithEntry, Capacity;
    ghost var before := block[..];
    ghost var cap := if Supported(bits) then Capacity(block.Length, bits) else 0;
    var tally := NOTHING;
    var idx := 0;
    while idx < entries
      invariant idx <= entries
      invariant forall k :: cap <= k < idx ==> !Covers(computed, k)
      invariant !Supported(bits) ==> block[..] == before
      invariant Supported(bits) ==>
                  var n := if idx <= cap then idx else cap;
                  block[..] == Corrected(before, bits, computed, n) && tally == Changes(before, bits, computed, n)
    {
      if computed(idx).Some? {
        var want := computed(idx).value;
        assert Covers(computed, idx);
        var access := Access(block.Length, bits, idx);
        if access.Err? {
          return Err(access.error);
        }
        CorrectedEntry(before, bits, computed, idx, idx);
        var have := Entry(block[..], bits, idx);
        if want != have {
          var done := SetRefcount(block, bits, idx, want);
          if want > have {
            tally := tally.(raised := tally.raised + 1);
          } else if want > 0 {
            tally := tally.(lowered := tally.lowered + 1);
          } else {
            tally := tally.(freed := tally.freed + 1);
          }
        }
      }
      idx := idx + 1;
    }
    return Ok(tally);
  }

  /**
   Correction with "keep what is referenced, zero the rest" is reclamation, byte for byte: as many entries freed
   as reclaimed, none raised, none lowered.
   */
  lemma {:induction false} CorrectionGeneralisesReclaim(
      block: seq<byte>, bits: nat, referenced: nat -> bool, computed: nat -> Option<nat>, n: nat)
    requires Supported(bits) && n <= Capacity(|block|, bits)
    requires forall j :: 0 <= j < n ==> computed(j) == Some(if referenced(j) then Entry(block, bits, j) else 0)
    ensures Corrected(block, bits, computed, n) == Reclaimed(block, bits, referenced, n)
    ensures Changes(block, bits, computed, n) == Tally(0, 0, LeakCount(block, bits, referenced, n))
  {
    hide Entry, WithEntry, Capacity;
    if n > 0 {
      CorrectionGeneralisesReclaim(block, bits, referenced, computed, n - 1);
      ReclaimedEntry(block, bits, referenced, n - 1, n - 1);
    }
  }

  /** A second correction changes no byte, and reports nothing exactly if every covered count fits its entry. */
  lemma {:induction false} SecondCorrection(block: seq<byte>, bits: nat, computed: nat -> Option<nat>, n: nat, k: nat)
    requires Supported(bits) && k <= n <= Capacity(|block|, bits)
    ensures var b := Corrected(block, bits, computed, n);
            && Corrected(b, bits, computed, k) == b
            && (Changes(b, bits, computed, k) == NOTHING <==>
                  forall j :: 0 <= j < k && computed(j).Some? ==> computed(j).value < Values(bits))
  {
    hide Entry, WithEntry, Capacity, Stored;
    if k > 0 {
      var b := Corrected(block, bits, computed, n);
      SecondCorrection(block, bits, computed, n, k - 1);
      CorrectedEntry(block, bits, computed, n, k - 1);
      EntryFits(b, bits, k - 1);
      if computed(k - 1).Some? {
        SameEntry(b, bits, k - 1, computed(k - 1).value);
      }
    }
  }

  // ----- counting references -----

  /** One more reference to a cluster; a count the width cannot hold is refused. */
  function Accounted(counts: seq<byte>, bits: nat, cluster: nat): (r: Result<seq<byte>>)
    ensures r.Ok? ==> |r.value| == |counts|
  {
    var access := Access(|counts|, bits, cluster);
    if access.Err? then Err(access.error)
    else if Entry(counts, bits, cluster) + 1 >= Values(bits) then Err(AmbiguousCorruption)
    else Ok(WithEntry(counts, bits, cluster, Entry(counts, bits, cluster) + 1))
  }

  method AccountReference(counts: array<byte>, bits: nat, cluster: nat) returns (r: Result<()>)
    modifies counts
    ensures r.Ok? <==> Accounted(old(counts[..]), bits, cluster).Ok?
    ensures r.Err? ==> r.error == Accounted(old(counts[..]), bits, cluster).error
    ensures counts[..] == if r.Ok? then Accounted(old(counts[..]), bits, cluster).value else old(counts[..])
  {
    hide Entry, WithEntry, Capacity;
    var access := Access(counts.Length, bits, cluster);
    if access.Err? {
      return Err(access.error);
    }
    var current := Entry(counts[..], bits, cluster);
    if current + 1 >= Values(bits) {
      return Err(AmbiguousCorruption);
    }
    r := SetRefcount(counts, bits, cluster, current + 1);
  }

  /** A walk that discovers the given references, one after the other. */
  function AccountAll(counts: seq<byte>, bits: nat, refs: seq<nat>): (r: Result<seq<byte>>)
    ensures r.Ok? ==> |r.value| == |counts|
  {
    if refs == [] then Ok(counts) else
    match AccountAll(counts, bits, refs[..|refs| - 1])
    case Err(e) => Err(e)
    case Ok(m) => Accounted(m, bits, refs[|refs| - 1])
  }

  predicate CountsFit(counts: seq<byte>, bits: nat, refs: seq<nat>)
    requires Supported(bits)
  {
    forall c :: 0 <= c < Capacity(|counts|, bits) && c in refs ==>
      Entry(counts, bits, c) + multiset(refs)[c] < Values(bits)
  }

  /**
   The walk succeeds exactly if every total fits the width, and then each entry has grown by its number of references.
   */
  lemma {:induction false} WalkCounts(counts: seq<byte>, bits: nat, refs: seq<nat>)
    requires Supported(bits) && forall k :: 0 <= k < |refs| ==> refs[k] < Capacity(|counts|, bits)
    ensures AccountAll(counts, bits, refs).Ok? <==> CountsFit(counts, bits, refs)
    ensures AccountAll(counts, bits, refs).Ok? ==>
              forall c :: 0 <= c < Capacity(|counts|, bits) ==>
                Entry(AccountAll(counts, bits, refs).value, bits, c) == Entry(counts, bits, c) + multiset(refs)[c]
    ensures AccountAll(counts, bits, refs).Err? ==> AccountAll(counts, bits, refs).error == AmbiguousCorruption
  {
    hide Entry, WithEntry, Capacity, Values;
    if refs != [] {
      var init, last := refs[..|refs| - 1], refs[|refs| - 1];
      assert refs == init + [last];
      WalkCounts(counts, bits, init);
      match AccountAll(counts, bits, init)
      case Err(_) =>
      case Ok(m) =>
        forall c | 0 <= c < Capacity(|counts|, bits)
          ensures Entry(WithEntry(m, bits, last, Entry(m, bits, last) + 1), bits, c) ==
                  if c == last then Stored(bits, Entry(m, bits, last) + 1) else Entry(m, bits, c)
        {
          EntryOfWith(m, bits, last, Entry(m, bits, last) + 1, c);
        }
    }
  }

  /** Count every reference into an all-zero map, then correct: each stored count is the true number of references. */
  lemma RepairRestoresCounts(block: seq<byte>, counts: seq<byte>, bits: nat, refs: seq<nat>,
                             computed: nat -> Option<nat>, n: nat)
    requires Supported(bits) && n <= Capacity(|block|, bits) && n <= Capacity(|counts|, bits)
    requires forall k :: 0 <= k < |refs| ==> refs[k] < Capacity(|counts|, bits)
    requires forall c :: 0 <= c < Capacity(|counts|, bits) ==> Entry(counts, bits, c) == 0
    requires AccountAll(counts, bits, refs).Ok?
    requires forall c :: 0 <= c < n ==> computed(c) == Some(Entry(AccountAll(counts, bits, refs).value, bits, c))
    ensures forall c :: 0 <= c < n ==> Entry(Corrected(block, bits, computed, n), bits, c) == multiset(refs)[c]
    ensures Corrected(Corrected(block, bits, computed, n), bits, computed, n) == Corrected(block, bits, computed, n)
  {
    hide Entry, WithEntry, Capacity;
    WalkCounts(counts, bits, refs);
    var totals := AccountAll(counts, bits, refs).value;
    forall c | 0 <= c < n
      ensures Entry(Corrected(block, bits, computed, n), bits, c) == multiset(refs)[c]
    {
      CorrectedEntry(block, bits, computed, n, c);
      EntryFits(totals, bits, c);
    }
    SecondCorrection(block, bits, computed, n, n);
  }

  // ----- what the tallies count -----

  /** The entries among the first n with a computed count, and a relation between it and the stored one. */
  ghost function Where(block: seq<byte>, bits: nat, computed: nat -> Option<nat>, n: nat, rel: (nat, nat) -> bool)
    : set<nat>
    requires Supported(bits) && n <= Capacity(|block|, bits)
  {
    set k: nat | k < n && computed(k).Some? && rel(computed(k).value, Entry(block, bits, k))
  }

  lemma WhereStep(block: seq<byte>, bits: nat, computed: nat -> Option<nat>, n: nat, rel: (nat, nat) -> bool)
    requires Supported(bits) && n <= Capacity(|block|, bits)
    ensures |Where(block, bits, computed, n, rel)| ==
            if n == 0 then 0
            else |Where(block, bits, computed, n - 1, rel)| +
                 if computed(n - 1).Some? && rel(computed(n - 1).value, Entry(block, bits, n - 1)) then 1 else 0
  {
    hide Entry, Capacity;
    var now := Where(block, bits, computed, n, rel);
    if n == 0 {
      assert now == {};
    } else {
      var before := Where(block, bits, computed, n - 1, rel);
      assert now == before + if computed(n - 1).Some? && rel(computed(n - 1).value, Entry(block, bits, n - 1))
        then {n - 1} else {};
    }
  }

  /** Raised: too low before. Freed: in use before and zero now. Lowered: too high before and still in use. */
  lemma {:induction false} TallyCounts(block: seq<byte>, bits: nat, computed: nat -> Option<nat>, n: nat)
    requires Supported(bits) && n <= Capacity(|block|, bits)
    ensures var t := Changes(block, bits, computed, n);
            && t.raised == |Where(block, bits, computed, n, (want, have) => have < want)|
            && t.freed == |Where(block, bits, computed, n, (want, have) => want == 0 && 0 < have)|
            && t.lowered == |Where(block, bits, computed, n, (want, have) => 0 < want < have)|
  {
    hide Entry, Capacity, Where;
    WhereStep(block, bits, computed, n, (want, have) => have < want);
    WhereStep(block, bits, computed, n, (want, have) => want == 0 && 0 < have);
    WhereStep(block, bits, computed, n, (want, have) => 0 < want < have);
    if n > 0 {
      TallyCounts(block, bits, computed, n - 1);
    }
  }
}
