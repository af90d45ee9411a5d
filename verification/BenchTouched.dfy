/** The refcount-growth bound: no schedule touches more units of the image than it says. */
module BenchTouched {
  import opened Bytes
  import opened BenchSchedule

  predicate Between(u: nat, lo: nat, hi: nat) {
    lo <= u < hi
  }

  ghost function Range(lo: nat, hi: nat): set<nat> {
    set u: nat | u < hi && Between(u, lo, hi)
  }

  lemma {:induction false} RangeSize(lo: nat, hi: nat)
    requires lo <= hi
    ensures |Range(lo, hi)| == hi - lo
    decreases hi - lo
  {
    if lo < hi {
      RangeSize(lo, hi - 1);
      assert Range(lo, hi) == Range(lo, hi - 1) + {hi - 1};
    } else {
      assert Range(lo, hi) == {};
    }
  }

  lemma SubsetSize(a: set<nat>, b: set<nat>)
    requires a <= b
    ensures |a| <= |b|
  {
    assert b == a + (b - a);
  }

  /** Units a request overlaps; one that runs past the end of the image fails and touches nothing. */
  ghost function UnitsOf(o: nat, bufsize: nat, image: nat, unit: nat): set<nat>
    requires unit > 0
  {
    if bufsize == 0 || o + bufsize > image then {} else Range(o / unit, (o + bufsize - 1) / unit + 1)
  }

  /** Units the first n requests touch. */
  ghost function Touched(p: Params, image: nat, unit: nat, n: nat): set<nat>
    requires unit > 0
  {
    if n == 0 then {}
    else
      Touched(p, image, unit, n - 1) +
      UnitsOf(OffsetOf(p, Modulus(image, p.bufsize, false), n - 1), p.bufsize, image, unit)
  }

  function UnitsSpanned(start: nat, end: nat, unit: nat): nat
    requires unit > 0
  {
    if end <= start then 0 else DivMono(start, end - 1, unit); (end - 1) / unit - start / unit + 1
  }

  function LastEnd(p: Params): nat
    requires p.count > 0
  {
    Saturate(Saturate(p.offset + Saturate(Times(p.count - 1, p.EffectiveStep()))) + p.bufsize)
  }

  function Min(a: nat, b: nat): nat {
    if a < b then a else b
  }

  function PerRequest(p: Params, unit: nat): nat
    requires unit > 0
  {
    p.bufsize / unit + 2
  }

  function CeilDiv(a: nat, b: nat): nat
    requires b > 0
  {
    (a + b - 1) / b
  }

  /** The least of three bounds: per request, over the span if nothing wraps, and the whole image. */
  function UnitBound(p: Params, image: nat, unit: nat): nat
    requires unit > 0
  {
    if image == 0 || p.count == 0 then 0
    else
      var each := Saturate(Times(p.count, Saturate(PerRequest(p, unit))));
      var span := if p.count == 1 || LastEnd(p) < image then Min(each, UnitsSpanned(p.offset, LastEnd(p), unit))
        else each;
      Min(span, CeilDiv(image, unit))
  }

  /** Data clusters, and L2 tables at one eighth of a cluster of entries each. */
  function WorstCase(p: Params, image: nat, cluster: nat): (r: (nat, nat)) {
    if cluster == 0 then (0, 0)
    else
      var coverage := Saturate(Times(cluster, cluster / 8));
      (UnitBound(p, image, cluster), if coverage == 0 then 0 else UnitBound(p, image, coverage))
  }

  /** A range of b bytes overlaps at most b / unit + 2 units. */
  lemma RequestUnits(o: nat, b: nat, image: nat, unit: nat)
    requires unit > 0
    ensures |UnitsOf(o, b, image, unit)| <= b / unit + 2
  {
    if b > 0 && o + b <= image {
      DivMono(o, o + b - 1, unit);
      RangeSize(o / unit, (o + b - 1) / unit + 1);
      SumQuotient(o, b - 1, unit);
      DivMono(b - 1, b, unit);
    }
  }

  lemma SumQuotient(a: nat, b: nat, d: nat)
    requires d > 0
    ensures (a + b) / d <= a / d + b / d + 1
  {
    hide Times;
    var q, s := a / d, b / d;
    var r := a % d + b % d;
    WholeAndRest(a, d);
    WholeAndRest(b, d);
    TimesAdd(q, s, d);
    if r < d {
      QuotientIs(a + b, q + s, d, r);
    } else {
      TimesStep(q + s, d);
      QuotientIs(a + b, q + s + 1, d, r - d);
    }
  }

  lemma UnionSize(a: set<nat>, b: set<nat>)
    ensures |a + b| <= |a| + |b|
  {
    assert a + b == a + (b - a);
    SubsetSize(b - a, b);
  }

  lemma {:induction false} BoundPerRequest(p: Params, image: nat, unit: nat, n: nat)
    requires unit > 0
    ensures |Touched(p, image, unit, n)| <= Times(n, PerRequest(p, unit))
  {
    hide Times, OffsetOf, UnitsOf;
    if n == 0 {
      TimesStep(0, PerRequest(p, unit));
    } else {
      BoundPerRequest(p, image, unit, n - 1);
      var o := OffsetOf(p, Modulus(image, p.bufsize, false), n - 1);
      RequestUnits(o, p.bufsize, image, unit);
      UnionSize(Touched(p, image, unit, n - 1), UnitsOf(o, p.bufsize, image, unit));
      TimesStep(n - 1, PerRequest(p, unit));
    }
  }

  lemma {:induction false} WithinImage(p: Params, image: nat, unit: nat, n: nat)
    requires unit > 0
    ensures Touched(p, image, unit, n) <= Range(0, CeilDiv(image, unit))
  {
    hide OffsetOf, CeilDiv;
    if n > 0 {
      WithinImage(p, image, unit, n - 1);
      var o := OffsetOf(p, Modulus(image, p.bufsize, false), n - 1);
      if p.bufsize > 0 && o + p.bufsize <= image {
        LastUnit(o + p.bufsize - 1, image, unit);
      }
    }
  }

  lemma LastUnit(x: nat, image: nat, unit: nat)
    requires unit > 0 && x < image
    ensures x / unit + 1 <= CeilDiv(image, unit)
  {
    hide Times;
    WholeAndRest(x, unit);
    TimesStep(x / unit, unit);
    QuotientIs(x + unit, x / unit + 1, unit, x % unit);
    DivMono(x + unit, image + unit - 1, unit);
  }

  /** Without a wrap every request lies between the first offset and the last end. */
  lemma {:induction false} WithinSpan(p: Params, image: nat, unit: nat, n: nat)
    requires unit > 0 && image < U64 && 0 < p.count && n <= p.count && (p.count == 1 || LastEnd(p) < image)
    ensures forall u :: u in Touched(p, image, unit, n) ==>
              p.offset < LastEnd(p) && p.offset / unit <= u < (LastEnd(p) - 1) / unit + 1
  {
    hide Times, Modulus;
    if n > 0 {
      WithinSpan(p, image, unit, n - 1);
      var m := Modulus(image, p.bufsize, false);
      var o := OffsetOf(p, m, n - 1);
      if p.bufsize > 0 && o + p.bufsize <= image {
        RequestInSpan(p, image, n - 1);
        DivMono(p.offset, o, unit);
        DivMono(o + p.bufsize - 1, LastEnd(p) - 1, unit);
      }
    }
  }

  lemma RequestInSpan(p: Params, image: nat, k: nat)
    requires image < U64 && k < p.count && (p.count == 1 || LastEnd(p) < image) && p.bufsize > 0
    requires OffsetOf(p, Modulus(image, p.bufsize, false), k) + p.bufsize <= image
    ensures p.offset <= OffsetOf(p, Modulus(image, p.bufsize, false), k)
    ensures OffsetOf(p, Modulus(image, p.bufsize, false), k) + p.bufsize <= LastEnd(p)
  {
    hide Times;
    var m, s := Modulus(image, p.bufsize, false), p.EffectiveStep();
    TimesStep(0, s);
    if p.count > 1 {
      LinearOffsets(p, m, k);
      TimesMono(k, p.count - 1, s);
    }
  }

  /** The bound holds for every schedule, wrapping or not, and for every unit. */
  lemma BoundHolds(p: Params, image: nat, unit: nat)
    requires p.InWidth() && unit > 0 && image < U64
    ensures |Touched(p, image, unit, p.count)| <= UnitBound(p, image, unit)
  {
    hide Times, Touched, CeilDiv, UnitsSpanned;
    var t := Touched(p, image, unit, p.count);
    if image == 0 || p.count == 0 {
      NothingToTouch(p, image, unit, p.count);
    } else {
      BoundPerRequest(p, image, unit, p.count);
      WithinImage(p, image, unit, p.count);
      RangeSize(0, CeilDiv(image, unit));
      SubsetSize(t, Range(0, CeilDiv(image, unit)));
      UnitsInWidth(image, unit);
      PerRequestSaturated(p, unit, |t|);
      if p.count == 1 || LastEnd(p) < image {
        WithinSpan(p, image, unit, p.count);
        SpanSize(t, p.offset, LastEnd(p), unit);
      }
    }
  }

  lemma {:induction false} NothingToTouch(p: Params, image: nat, unit: nat, n: nat)
    requires unit > 0 && (image == 0 || n == 0)
    ensures Touched(p, image, unit, n) == {}
  {
    if n > 0 {
      NothingToTouch(p, image, unit, n - 1);
    }
  }

  lemma UnitsInWidth(image: nat, unit: nat)
    requires unit > 0
    ensures CeilDiv(image, unit) <= image
  {
    hide Times;
    if image > 0 {
      WholeAndRest(image - 1, unit);
      TimesStep((image - 1) / unit, unit);
      QuotientIs(image + unit - 1, (image - 1) / unit + 1, unit, (image - 1) % unit);
      QuotientSmall(image - 1, unit);
    }
  }

  lemma QuotientSmall(a: nat, d: nat)
    requires d > 0
    ensures a / d <= a
  {
    MulMono(1, d, a / d);
  }

  lemma PerRequestSaturated(p: Params, unit: nat, n: nat)
    requires p.count > 0 && unit > 0 && n < U64 && n <= Times(p.count, PerRequest(p, unit))
    ensures n <= Saturate(Times(p.count, Saturate(PerRequest(p, unit))))
  {
    hide Times, PerRequest;
    var each := PerRequest(p, unit);
    if each >= U64 {
      TimesStep(0, Saturate(each));
      TimesMono(1, p.count, Saturate(each));
    }
  }

  lemma SpanSize(t: set<nat>, lo: nat, end: nat, unit: nat)
    requires unit > 0 && forall u :: u in t ==> lo < end && lo / unit <= u < (end - 1) / unit + 1
    ensures |t| <= UnitsSpanned(lo, end, unit)
  {
    if t != {} {
      var u :| u in t;
      DivMono(lo, end - 1, unit);
      RangeSize(lo / unit, (end - 1) / unit + 1);
      SubsetSize(t, Range(lo / unit, (end - 1) / unit + 1));
    }
  }

  /** Requests after which a flush is issued, counting from one. */
  predicate FlushAfter(count: nat, k: nat, interval: nat) {
    interval != 0 && 1 <= k <= count && (count - k) % interval == 0
  }

  /** Among the last n requests, those followed by a flush. */
  ghost function Flushes(count: nat, interval: nat, n: nat): set<nat> {
    set k: nat | k <= count && FlushAfter(count, k, interval) && count < k + n
  }

  function TotalFlushes(count: nat, interval: nat): nat {
    if interval == 0 || count == 0 then 0 else (count - 1) / interval + 1
  }

  lemma QuotientStep(n: nat, d: nat)
    requires d > 0 && n > 0
    ensures n / d == (n - 1) / d + if n % d == 0 then 1 else 0
  {
    hide Times;
    var q, r := n / d, n % d;
    WholeAndRest(n, d);
    if r > 0 {
      QuotientIs(n - 1, q, d, r - 1);
    } else {
      TimesStep(0, d);
      assert q > 0;
      TimesStep(q - 1, d);
      QuotientIs(n - 1, q - 1, d, d - 1);
    }
  }

  lemma {:induction false} FlushesCounted(count: nat, interval: nat, n: nat)
    requires n <= count
    ensures |Flushes(count, interval, n)| == TotalFlushes(n, interval)
  {
    if n == 0 || interval == 0 {
      assert Flushes(count, interval, n) == {};
    } else {
      FlushesCounted(count, interval, n - 1);
      var k := count - (n - 1);
      var before := Flushes(count, interval, n - 1);
      if n > 1 {
        QuotientStep(n - 1, interval);
      }
      if FlushAfter(count, k, interval) {
        assert Flushes(count, interval, n) == before + {k};
      } else {
        assert Flushes(count, interval, n) == before;
      }
    }
  }

  /** The closed form is the number of requests in the whole run that are followed by a flush. */
  lemma TotalFlushesCounts(count: nat, interval: nat)
    ensures TotalFlushes(count, interval) == |set k: nat | k <= count && FlushAfter(count, k, interval)|
  {
    FlushesCounted(count, interval, count);
    assert Flushes(count, interval, count) == set k: nat | k <= count && FlushAfter(count, k, interval);
  }

  /** Both bounds of the planner, at the cluster size and at the reach of an L2 table. */
  lemma WorstCaseHolds(p: Params, image: nat, cluster: nat)
    requires p.InWidth() && image < U64 && cluster > 0
    ensures |Touched(p, image, cluster, p.count)| <= WorstCase(p, image, cluster).0
    ensures var reach := Saturate(Times(cluster, cluster / 8));
            reach > 0 ==> |Touched(p, image, reach, p.count)| <= WorstCase(p, image, cluster).1
  {
    hide Times, Touched, UnitBound;
    BoundHolds(p, image, cluster);
    var reach := Saturate(Times(cluster, cluster / 8));
    if reach > 0 {
      BoundHolds(p, image, reach);
    }
  }

  // ----- where the bound is exact -----

  /** Without a gap between requests, the first n touch one range of units. */
  lemma {:induction false} OneRange(p: Params, image: nat, unit: nat, n: nat)
    requires unit > 0 && 0 < n <= p.count && p.bufsize > 0 && 0 < p.EffectiveStep() <= p.bufsize && image < U64
    requires p.offset + Times(p.count - 1, p.EffectiveStep()) + p.bufsize < image
    ensures Touched(p, image, unit, n) ==
            Range(p.offset / unit, (p.offset + Times(n - 1, p.EffectiveStep()) + p.bufsize - 1) / unit + 1)
  {
    hide Times;
    var s, b := p.EffectiveStep(), p.bufsize;
    LinearOffsets(p, Modulus(image, b, false), n - 1);
    TimesMono(n - 1, p.count - 1, s);
    var start := p.offset + Times(n - 1, s);
    if n > 1 {
      OneRange(p, image, unit, n - 1);
      TimesStep(n - 2, s);
      Adjoin(p.offset, start - s + b, start, start + b, unit);
    } else {
      TimesStep(0, s);
      assert Touched(p, image, unit, 0) == {};
    }
  }

  /** Two ranges of bytes without a gap between them touch one range of units. */
  lemma Adjoin(a: nat, end: nat, start: nat, last: nat, unit: nat)
    requires unit > 0 && a < end && a <= start <= end <= last && start < last
    ensures Range(a / unit, (end - 1) / unit + 1) + Range(start / unit, (last - 1) / unit + 1) ==
            Range(a / unit, (last - 1) / unit + 1)
  {
    DivMono(a, start, unit);
    DivMono(end - 1, last - 1, unit);
    DivMono(start, end, unit);
    NextUnit(end - 1, unit);
  }

  lemma NextUnit(x: nat, unit: nat)
    requires unit > 0
    ensures (x + 1) / unit <= x / unit + 1
  {
    hide Times;
    WholeAndRest(x, unit);
    if x % unit + 1 < unit {
      QuotientIs(x + 1, x / unit, unit, x % unit + 1);
    } else {
      TimesStep(x / unit, unit);
      QuotientIs(x + 1, x / unit + 1, unit, 0);
    }
  }

  /** Without gaps and wraps, the bound is the number of units touched. */
  lemma ExactWithoutGaps(p: Params, image: nat, unit: nat)
    requires p.InWidth() && unit > 0 && p.count > 0 && p.bufsize > 0 && 0 < p.EffectiveStep() <= p.bufsize
    requires p.offset + Times(p.count - 1, p.EffectiveStep()) + p.bufsize < image < U64
    ensures |Touched(p, image, unit, p.count)| == UnitBound(p, image, unit)
  {
    hide Times, Touched, CeilDiv;
    OneRange(p, image, unit, p.count);
    var last := p.offset + Times(p.count - 1, p.EffectiveStep()) + p.bufsize;
    DivMono(p.offset, last - 1, unit);
    RangeSize(p.offset / unit, (last - 1) / unit + 1);
    BoundHolds(p, image, unit);
  }

  /** Requests far apart, each of which starts on the last byte of a unit and ends on the first of another. */
  predicate Spread(p: Params, image: nat, unit: nat, first: nat, gap: nat, whole: nat) {
    && unit > 2 && p.count > 0 && p.bufsize == Times(whole, unit) + 2 && p.offset == Times(first, unit) + unit - 1
    && p.EffectiveStep() == Times(gap, unit) && gap >= whole + 2
    && p.offset + Times(p.count - 1, p.EffectiveStep()) + p.bufsize < image < U64
  }

  lemma SpreadRequest(p: Params, image: nat, unit: nat, first: nat, gap: nat, whole: nat, k: nat)
    requires Spread(p, image, unit, first, gap, whole) && k < p.count
    ensures UnitsOf(OffsetOf(p, Modulus(image, p.bufsize, false), k), p.bufsize, image, unit) ==
            Range(first + Times(k, gap), first + Times(k, gap) + whole + 2)
  {
    hide Times;
    var s := p.EffectiveStep();
    LinearOffsets(p, Modulus(image, p.bufsize, false), k);
    TimesMono(k, p.count - 1, s);
    TimesOfTimes(k, gap, unit);
    TimesAdd(first, Times(k, gap), unit);
    var u := first + Times(k, gap);
    var o := p.offset + Times(k, s);
    QuotientIs(o, u, unit, unit - 1);
    TimesAdd(u, whole, unit);
    TimesStep(u + whole, unit);
    QuotientIs(o + p.bufsize - 1, u + whole + 1, unit, 0);
  }

  lemma TimesOfTimes(k: nat, gap: nat, unit: nat)
    ensures Times(k, Times(gap, unit)) == Times(Times(k, gap), unit)
  {
    MulAssoc(k, gap, unit);
  }

  /** All units touched so far lie before the next request. */
  lemma {:induction false} SpreadTouched(p: Params, image: nat, unit: nat, first: nat, gap: nat, whole: nat, n: nat)
    requires Spread(p, image, unit, first, gap, whole) && n <= p.count
    ensures |Touched(p, image, unit, n)| == Times(n, whole + 2)
    ensures forall u :: u in Touched(p, image, unit, n) ==> u < first + Times(n, gap)
  {
    hide Times, UnitsOf, Range;
    TimesStep(0, whole + 2);
    if n > 0 {
      SpreadTouched(p, image, unit, first, gap, whole, n - 1);
      SpreadRequest(p, image, unit, first, gap, whole, n - 1);
      TimesStep(n - 1, gap);
      TimesStep(n - 1, whole + 2);
      var lo := first + Times(n - 1, gap);
      RangeSize(lo, lo + whole + 2);
      JoinBehind(Touched(p, image, unit, n - 1), lo, lo + whole + 2);
    }
  }

  /** Units behind all others are new. */
  lemma JoinBehind(s: set<nat>, lo: nat, hi: nat)
    requires lo <= hi && forall u :: u in s ==> u < lo
    ensures |s + Range(lo, hi)| == |s| + |Range(lo, hi)| && forall u :: u in s + Range(lo, hi) ==> u < hi
  {
    assert s !! Range(lo, hi);
  }

  /** Then the bound is exact, too: two units more for each request than its whole ones. */
  lemma ExactWhenSpread(p: Params, image: nat, unit: nat, first: nat, gap: nat, whole: nat)
    requires p.InWidth() && Spread(p, image, unit, first, gap, whole)
    ensures |Touched(p, image, unit, p.count)| == UnitBound(p, image, unit) == Times(p.count, whole + 2)
  {
    hide Times, Touched, CeilDiv, UnitsSpanned, LastEnd;
    SpreadTouched(p, image, unit, first, gap, whole, p.count);
    BoundHolds(p, image, unit);
    QuotientIs(p.bufsize, whole, unit, 2);
    WithinImage(p, image, unit, p.count);
  }
}
