/** The offsets a bench run submits, and how many units of an image they can touch. */
module BenchSchedule {
  import opened Bytes

  const ARG_MAX: nat := 0x7FFF_FFFF
  const MAX_BUFSIZE: nat := 0x20_0000

  datatype Params = Params(count: nat, depth: nat, bufsize: nat, step: nat, offset: nat, isWrite: bool,
    flushInterval: nat)
  {
    predicate InWidth() { count < U32 && depth < U32 && bufsize < U64 && step < U64 && offset < U64
                      && flushInterval < U32 }

    /** A step of zero means the buffer size. */
    function EffectiveStep(): nat { if step == 0 then bufsize else step }
  }

  datatype Verdict = Ok | CountOutOfRange | DepthOutOfRange | BufsizeOutOfRange | BufsizeAboveCap | StepOutOfRange
    | FlushRequiresWrite | FlushIntervalSmallerThanDepth

  function Validate(p: Params): Verdict {
    if p.count < 1 then CountOutOfRange
    else if p.depth < 1 then DepthOutOfRange
    else if p.bufsize < 1 || p.bufsize > ARG_MAX then BufsizeOutOfRange
    else if p.bufsize > MAX_BUFSIZE then BufsizeAboveCap
    else if p.step > ARG_MAX then StepOutOfRange
    else if p.flushInterval != 0 && !p.isWrite then FlushRequiresWrite
    else if p.flushInterval != 0 && p.flushInterval < p.depth then FlushIntervalSmallerThanDepth
    else Ok
  }

  function Saturate(x: nat): (r: nat)
    ensures r <= x && r < U64 && (x < U64 ==> r == x)
  {
    if x < U64 then x else U64 - 1
  }

  /** Both wrap rules: modulo what is left after a buffer, or (the older one) modulo the whole image. */
  function Modulus(image: nat, bufsize: nat, whole: bool): nat {
    if whole then image else if image <= bufsize then 0 else image - bufsize
  }

  function NextOffset(cur: nat, step: nat, modulus: nat): (r: nat)
    ensures r < modulus || r == 0
  {
    if modulus == 0 then 0 else Saturate(cur + step) % modulus
  }

  /** The offset of request k; the first is taken as given. */
  function OffsetOf(p: Params, modulus: nat, k: nat): nat {
    if k == 0 then p.offset else NextOffset(OffsetOf(p, modulus, k - 1), p.EffectiveStep(), modulus)
  }

  /** The schedule as the iterator yields it. */
  method Schedule(p: Params, image: nat) returns (offsets: seq<nat>)
    ensures |offsets| == p.count
    ensures forall k :: 0 <= k < p.count ==> offsets[k] == OffsetOf(p, Modulus(image, p.bufsize, false), k)
  {
    hide NextOffset;
    var next, step := p.offset, p.EffectiveStep();
    offsets := [];
    for k := 0 to p.count
      invariant |offsets| == k && next == OffsetOf(p, Modulus(image, p.bufsize, false), k)
      invariant forall i :: 0 <= i < k ==> offsets[i] == OffsetOf(p, Modulus(image, p.bufsize, false), i)
    {
      offsets := offsets + [next];
      next := NextOffset(next, step, Modulus(image, p.bufsize, false));
    }
  }

  /** The last request starts below the modulus. */
  predicate Linear(p: Params, modulus: nat) {
    p.count <= 1 || p.offset + Times(p.count - 1, p.EffectiveStep()) < modulus
  }

  lemma SmallMod(x: nat, m: nat)
    requires x < m
    ensures x % m == x
  {
    DivModUnique(0, m, x);
  }

  lemma {:induction false} LinearOffsets(p: Params, modulus: nat, k: nat)
    requires Linear(p, modulus) && modulus <= U64 && k < p.count
    ensures OffsetOf(p, modulus, k) == p.offset + Times(k, p.EffectiveStep())
  {
    hide Times;
    var s := p.EffectiveStep();
    if k > 0 {
      LinearOffsets(p, modulus, k - 1);
      TimesStep(k - 1, s);
      TimesMono(k, p.count - 1, s);
      SmallMod(p.offset + Times(k, s), modulus);
    } else {
      TimesStep(0, s);
    }
  }

  /** A schedule never wraps exactly when its last request starts below the modulus. */
  lemma NeverWraps(p: Params, modulus: nat)
    requires modulus <= U64 && p.count >= 1 && p.EffectiveStep() > 0
    ensures (forall k :: 0 <= k < p.count ==> OffsetOf(p, modulus, k) == p.offset + Times(k, p.EffectiveStep())) <==>
              Linear(p, modulus)
  {
    hide Times;
    if Linear(p, modulus) {
      forall k | 0 <= k < p.count
        ensures OffsetOf(p, modulus, k) == p.offset + Times(k, p.EffectiveStep())
      {
        LinearOffsets(p, modulus, k);
      }
    } else {
      var k, s := p.count - 1, p.EffectiveStep();
      TimesStep(k - 1, s);
      assert OffsetOf(p, modulus, k) < modulus || OffsetOf(p, modulus, k) == 0;
      assert OffsetOf(p, modulus, k) != p.offset + Times(k, s);
    }
  }

  /** Under the modulus, request k > 0 starts at the offset plus k steps, taken modulo it. */
  lemma {:induction false} WrappedOffsets(p: Params, modulus: nat, k: nat)
    requires 0 < modulus && k > 0 && p.offset + p.EffectiveStep() < U64 && modulus + p.EffectiveStep() <= U64
    ensures OffsetOf(p, modulus, k) == (p.offset + Times(k, p.EffectiveStep())) % modulus
  {
    hide Times;
    var s := p.EffectiveStep();
    TimesStep(k - 1, s);
    if k > 1 {
      WrappedOffsets(p, modulus, k - 1);
      AddThenMod(p.offset + Times(k - 1, s), s, modulus);
    } else {
      TimesStep(0, s);
    }
  }

  lemma AddThenMod(a: nat, b: nat, m: nat)
    requires m > 0
    ensures (a % m + b) % m == (a + b) % m
  {
    hide Times;
    WholeAndRest(a, m);
    WholeAndRest(a % m + b, m);
    TimesAdd(a / m, (a % m + b) / m, m);
    QuotientIs(a + b, a / m + (a % m + b) / m, m, (a % m + b) % m);
  }

  /** Where no buffer fits into the image, every request but the first starts at zero. */
  lemma NoRoomNoOffset(p: Params, image: nat, k: nat)
    requires image <= p.bufsize && k > 0
    ensures OffsetOf(p, Modulus(image, p.bufsize, false), k) == 0
  {
  }

  /**
   The schedule of an image that leaves room behind a buffer: request k starts k steps behind the first one, modulo the
   room, and so every request but the first ends inside the image.
   */
  lemma ScheduleWraps(p: Params, image: nat, k: nat)
    requires p.bufsize < image < U64 && k > 0 && p.offset + p.EffectiveStep() < U64
    requires image - p.bufsize + p.EffectiveStep() <= U64
    ensures var o := OffsetOf(p, Modulus(image, p.bufsize, false), k);
            o == (p.offset + k * p.EffectiveStep()) % (image - p.bufsize) && o + p.bufsize < image
  {
    WrappedOffsets(p, image - p.bufsize, k);
  }

  /** A step of zero is a step of the buffer size. */
  lemma {:induction false} NoStepIsBufsize(p: Params, modulus: nat, k: nat)
    requires p.step == 0
    ensures OffsetOf(p, modulus, k) == OffsetOf(p.(step := p.bufsize), modulus, k)
  {
    if k > 0 {
      NoStepIsBufsize(p, modulus, k - 1);
    }
  }
}
