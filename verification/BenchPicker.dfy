/** The random bench plan keeps clear of both wrap rules. */
module BenchPicker {
  import opened Bytes
  import opened BenchSchedule

  const SMALL: seq<nat> := [512, 1024, 4096, 8192, 16384, 65536]
  const STRADDLING: seq<nat> := [4095, 4097, 12288, 65535, 65537, 131072]
  const LARGE: seq<nat> := [262144, 524288, 1048576, 2097152]
  const STEPS: seq<nat> := [512, 4096, 65536, 131072, 262144, 513, 777, 1000, 4097, 65537]

  /** The entries of a pool that leave room in the image. */
  function Fitting(pool: seq<nat>, cap: nat): (r: seq<nat>)
    ensures forall k :: 0 <= k < |r| ==> r[k] in pool && r[k] <= cap
  {
    if pool == [] then []
    else Fitting(pool[..|pool| - 1], cap) + if pool[|pool| - 1] <= cap then [pool[|pool| - 1]] else []
  }

  predicate Sizes(pool: seq<nat>) {
    forall k :: 0 <= k < |pool| ==> 512 <= pool[k] <= MAX_BUFSIZE
  }

  /** A buffer size that leaves room for at least three more, in any image of 2 KiB or more. */
  method PickBufsize(image: nat) returns (b: nat)
    ensures 512 <= b <= MAX_BUFSIZE && (image >= 2048 ==> b <= image / 4)
  {
    hide Fitting;
    var cap := image / 4;
    var smalls, straddlers, larges := Fitting(SMALL, cap), Fitting(STRADDLING, cap), Fitting(LARGE, cap);
    assert Sizes(SMALL) && Sizes(STRADDLING) && Sizes(LARGE);
    SomeSmall(cap);
    if smalls == [] {
      smalls := [512];
    }
    var pool := smalls;
    if * {
      if straddlers != [] {
        pool := straddlers;
      }
    } else if * {
      if larges != [] {
        pool := larges;
      }
    }
    var k :| 0 <= k < |pool|;
    b := pool[k];
  }

  lemma SomeSmall(cap: nat)
    ensures cap >= 512 ==> Fitting(SMALL, cap) != []
  {
    if cap >= 512 {
      FittingFirst(SMALL, cap);
    }
  }

  lemma {:induction false} FittingFirst(pool: seq<nat>, cap: nat)
    requires pool != [] && pool[0] <= cap
    ensures Fitting(pool, cap) != []
  {
    if |pool| > 1 {
      FittingFirst(pool[..|pool| - 1], cap);
    }
  }

  /** Zero, the buffer size, or one of a few aligned and unaligned values. */
  method PickStep(bufsize: nat) returns (step: nat)
    requires bufsize <= MAX_BUFSIZE
    ensures step <= ARG_MAX
  {
    if * {
      return 0;
    }
    if * {
      return bufsize;
    }
    var k :| 0 <= k < |STEPS|;
    return STEPS[k];
  }

  /**
   What the plan is for: valid, and the same offsets under both wrap rules, every request ending before the image does.
   */
  predicate Steered(p: Params, image: nat) {
    && Validate(p) == Ok
    && forall k :: 0 <= k < p.count ==>
         var o := OffsetOf(p, Modulus(image, p.bufsize, false), k);
         o == p.offset + Times(k, p.EffectiveStep()) && o == OffsetOf(p, Modulus(image, p.bufsize, true), k)
           && o + p.bufsize < image
  }

  lemma Steering(p: Params, image: nat)
    requires Validate(p) == Ok && image <= U64 && p.offset + Times(p.count - 1, p.EffectiveStep()) + p.bufsize < image
    ensures Steered(p, image)
  {
    hide Times, OffsetOf;
    forall k | 0 <= k < p.count
      ensures var o := OffsetOf(p, Modulus(image, p.bufsize, false), k);
              o == p.offset + Times(k, p.EffectiveStep()) && o == OffsetOf(p, Modulus(image, p.bufsize, true), k)
                && o + p.bufsize < image
    {
      LinearOffsets(p, Modulus(image, p.bufsize, false), k);
      LinearOffsets(p, Modulus(image, p.bufsize, true), k);
      TimesMono(k, p.count - 1, p.EffectiveStep());
    }
  }

  /** One invocation, for any sequence of random choices. */
  method Pick(image: nat) returns (p: Params)
    requires 2048 <= image <= U64
    ensures Steered(p, image)
    ensures p.flushInterval != 0 ==> p.flushInterval >= p.depth
  {
    hide Times;
    var bufsize := PickBufsize(image);
    var step := PickStep(bufsize);
    var eff := if step != 0 then step else bufsize;
    var depth :| 1 <= depth <= 64;
    var maxLast := image - bufsize - 1;
    var maxIncrements := maxLast / eff;
    var wanted :| 1 <= wanted <= 256;
    var count := if wanted < maxIncrements + 1 then wanted else maxIncrements + 1;
    count := if count < 1 then 1 else count;
    WholeAndRest(maxLast, eff);
    TimesMono(count - 1, maxIncrements, eff);
    var budget := maxLast - Times(count - 1, eff);
    var offset := 0;
    if budget > 0 {
      if * {
        offset :| 0 <= offset <= budget;
      }
    }
    var write, interval := false, 0;
    if * {
      write := true;
      if * {
        interval :| depth <= interval <= if depth > 4 * count then depth else 4 * count;
      }
    }
    p := Params(count, depth, bufsize, step, offset, write, interval);
    Steering(p, image);
  }
}
