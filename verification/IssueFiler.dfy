/** One issue per shape of divergence, up to a limit, with repeats noted at the end. */
module IssueFiler {

  /** What makes two divergences the same finding. */
  datatype Key = Key(kind: string, operation: string, fields: seq<(string, string)>, message: string)

  /** A divergence: when, of what shape, and what filing an issue for it would return ("" if that fails). */
  datatype Event = Event(iteration: nat, key: Key, outcome: string)

  datatype Shape = Shape(iterations: seq<nat>, url: string)

  datatype Summary = Summary(filed: nat, failed: nat, suppressed: nat, shapes: nat)

  /** Shapes in the order they were first seen. */
  function Distinct(events: seq<Event>): seq<Key> {
    if events == [] then []
    else
      var seen, key := Distinct(events[..|events| - 1]), events[|events| - 1].key;
      if key in seen then seen else seen + [key]
  }

  /** Every iteration of one shape, in order. */
  function IterationsOf(events: seq<Event>, key: Key): seq<nat> {
    if events == [] then []
    else
      var last := events[|events| - 1];
      IterationsOf(events[..|events| - 1], key) + if last.key == key then [last.iteration] else []
  }

  /** What filing the first divergence of a shape returned, or would have. */
  function FirstOutcome(events: seq<Event>, key: Key): string {
    if events == [] then ""
    else
      var init, last := events[..|events| - 1], events[|events| - 1];
      if last.key == key && key !in Distinct(init) then last.outcome else FirstOutcome(init, key)
  }

  function Min(a: nat, b: nat): nat {
    if a < b then a else b
  }

  /** How many of the first n shapes were filed successfully. */
  function Successes(events: seq<Event>, n: nat): (r: nat)
    requires n <= |Distinct(events)|
    ensures r <= n
  {
    if n == 0 then 0
    else Successes(events, n - 1) + if FirstOutcome(events, Distinct(events)[n - 1]) != "" then 1 else 0
  }

  /** The issue a shape ends up with: only the first max shapes are ever tried. */
  function UrlOf(events: seq<Event>, max: nat, i: nat): string
    requires i < |Distinct(events)|
  {
    if i < max then FirstOutcome(events, Distinct(events)[i]) else ""
  }

  /** Shape i was filed and came up more than once. */
  predicate Repeated(events: seq<Event>, max: nat, i: nat) {
    i < |Distinct(events)| && i < max && FirstOutcome(events, Distinct(events)[i]) != ""
      && |IterationsOf(events, Distinct(events)[i])| > 1
  }

  /** The issue a shape was filed as, and its iterations after the first. */
  function CommentOf(events: seq<Event>, i: nat): (string, seq<nat>)
    requires i < |Distinct(events)|
  {
    var its := IterationsOf(events, Distinct(events)[i]);
    (FirstOutcome(events, Distinct(events)[i]), if its == [] then [] else its[1..])
  }

  /** Comments due on the first n shapes: one for each filed shape that came up again. */
  function CommentsDue(events: seq<Event>, max: nat, n: nat): seq<(string, seq<nat>)>
    requires n <= |Distinct(events)|
  {
    if n == 0 then []
    else CommentsDue(events, max, n - 1) + if Repeated(events, max, n - 1) then [CommentOf(events, n - 1)] else []
  }

  /** One more event: what changes and what does not. */
  lemma EventStep(events: seq<Event>, e: Event)
    ensures Distinct(events + [e]) == if e.key in Distinct(events) then Distinct(events) else Distinct(events) + [e.key]
    ensures forall k :: IterationsOf(events + [e], k) == IterationsOf(events, k) + if e.key == k then [e.iteration]
              else []
    ensures forall k :: FirstOutcome(events + [e], k) ==
                        if e.key == k && k !in Distinct(events) then e.outcome else FirstOutcome(events, k)
  {
    assert (events + [e])[..|events|] == events;
  }

  lemma {:induction false} DistinctOnce(events: seq<Event>)
    ensures forall i, j :: 0 <= i < j < |Distinct(events)| ==> Distinct(events)[i] != Distinct(events)[j]
  {
    if events != [] {
      DistinctOnce(events[..|events| - 1]);
    }
  }

  /** Every shape's record is what its events say. */
  predicate ShapesTold(shapes: map<Key, Shape>, events: seq<Event>, max: nat) {
    var order := Distinct(events);
    && shapes.Keys == (set k | k in order)
    && forall i :: 0 <= i < |order| ==> shapes[order[i]] == Shape(IterationsOf(events, order[i]), UrlOf(events, max, i))
  }

  predicate CountsTold(filed: nat, failed: nat, suppressed: nat, events: seq<Event>, max: nat) {
    var n := |Distinct(events)|;
    filed == Successes(events, Min(n, max)) && filed + failed == Min(n, max) && suppressed == n - Min(n, max)
  }

  lemma RepeatTold(shapes: map<Key, Shape>, events: seq<Event>, max: nat, e: Event)
    requires ShapesTold(shapes, events, max) && e.key in shapes
    ensures ShapesTold(shapes[e.key := shapes[e.key].(iterations := shapes[e.key].iterations + [e.iteration])],
              events + [e], max)
  {
    hide Distinct, IterationsOf, FirstOutcome;
    EventStep(events, e);
  }

  lemma NewTold(shapes: map<Key, Shape>, events: seq<Event>, max: nat, e: Event)
    requires ShapesTold(shapes, events, max) && e.key !in shapes
    ensures ShapesTold(shapes[e.key := Shape([e.iteration], if |Distinct(events)| < max then e.outcome else "")],
              events + [e], max)
  {
    hide Distinct, IterationsOf, FirstOutcome;
    EventStep(events, e);
    NeverSeen(events, e.key);
  }

  lemma {:induction false} NeverSeen(events: seq<Event>, key: Key)
    requires key !in Distinct(events)
    ensures IterationsOf(events, key) == []
  {
    if events != [] {
      NeverSeen(events[..|events| - 1], key);
    }
  }

  lemma {:induction false} SuccessesKept(events: seq<Event>, e: Event, n: nat)
    requires n <= |Distinct(events)|
    ensures n <= |Distinct(events + [e])| && Successes(events + [e], n) == Successes(events, n)
  {
    hide Distinct, FirstOutcome;
    EventStep(events, e);
    if n > 0 {
      SuccessesKept(events, e, n - 1);
      var key := Distinct(events)[n - 1];
      assert Distinct(events + [e])[n - 1] == key && FirstOutcome(events + [e], key) == FirstOutcome(events, key);
    }
  }

  lemma CountsRepeat(filed: nat, failed: nat, suppressed: nat, events: seq<Event>, max: nat, e: Event)
    requires CountsTold(filed, failed, suppressed, events, max) && e.key in Distinct(events)
    ensures CountsTold(filed, failed, suppressed, events + [e], max)
  {
    hide Distinct, FirstOutcome, Successes;
    EventStep(events, e);
    SuccessesKept(events, e, Min(|Distinct(events)|, max));
  }

  lemma CountsNew(filed: nat, failed: nat, suppressed: nat, events: seq<Event>, max: nat, e: Event)
    requires CountsTold(filed, failed, suppressed, events, max) && e.key !in Distinct(events)
    ensures filed + failed >= max <==> |Distinct(events)| >= max
    ensures |Distinct(events)| >= max ==> CountsTold(filed, failed, suppressed + 1, events + [e], max)
    ensures |Distinct(events)| < max && e.outcome != "" ==> CountsTold(filed + 1, failed, suppressed, events + [e], max)
    ensures |Distinct(events)| < max && e.outcome == "" ==> CountsTold(filed, failed + 1, suppressed, events + [e], max)
  {
    hide Distinct, FirstOutcome;
    var n := |Distinct(events)|;
    EventStep(events, e);
    SuccessesKept(events, e, Min(n, max));
    assert Distinct(events + [e])[n] == e.key && FirstOutcome(events + [e], e.key) == e.outcome;
  }

  lemma KeysTold(shapes: map<Key, Shape>, events: seq<Event>, max: nat, key: Key)
    requires ShapesTold(shapes, events, max)
    ensures key in shapes <==> key in Distinct(events)
  {
    hide Distinct;
  }

  class Filer {
    const maxIssues: nat
    var order: seq<Key>
    var shapes: map<Key, Shape>
    var filed: nat
    var failed: nat
    var suppressed: nat
    ghost var events: seq<Event>
    ghost var attempts: seq<Key>

    constructor (maxIssues: nat)
      ensures Valid() && this.maxIssues == maxIssues && events == [] && attempts == []
    {
      this.maxIssues := maxIssues;
      order, shapes, filed, failed, suppressed := [], map[], 0, 0, 0;
      events, attempts := [], [];
    }

    /** The books say what happened, and filing was tried once for each of the first shapes. */
    ghost predicate Valid()
      reads this
    {
      && order == Distinct(events) && ShapesTold(shapes, events, maxIssues)
      && CountsTold(filed, failed, suppressed, events, maxIssues)
      && attempts == order[..Min(|order|, maxIssues)]
    }

    /** Records a divergence, and files it if its shape is new and the limit allows. */
    method Divergence(e: Event)
      requires Valid()
      modifies this
      ensures Valid() && events == old(events) + [e]
      ensures attempts == old(attempts) + if e.key !in Distinct(old(events))
                && |Distinct(old(events))| < maxIssues then [e.key] else []
    {
      hide Distinct, IterationsOf, FirstOutcome, Successes, ShapesTold, CountsTold;
      EventStep(events, e);
      KeysTold(shapes, events, maxIssues, e.key);
      ghost var before := events;
      events := events + [e];
      if e.key in shapes {
        CountsRepeat(filed, failed, suppressed, before, maxIssues, e);
        RepeatTold(shapes, before, maxIssues, e);
        var shape := shapes[e.key];
        shapes := shapes[e.key := shape.(iterations := shape.iterations + [e.iteration])];
        return;
      }
      CountsNew(filed, failed, suppressed, before, maxIssues, e);
      NewTold(shapes, before, maxIssues, e);
      order := order + [e.key];
      if filed + failed >= maxIssues {
        shapes := shapes[e.key := Shape([e.iteration], "")];
        suppressed := suppressed + 1;
        return;
      }
      attempts := attempts + [e.key];
      shapes := shapes[e.key := Shape([e.iteration], e.outcome)];
      if e.outcome != "" {
        filed := filed + 1;
      } else {
        failed := failed + 1;
      }
    }

    /** Comments on the filed shapes that repeated, and the counts. */
    method Finish() returns (comments: seq<(string, seq<nat>)>, summary: Summary)
      requires Valid()
      ensures comments == CommentsDue(events, maxIssues, |Distinct(events)|)
      ensures summary == Summary(filed, failed, suppressed, |Distinct(events)|)
      ensures summary.shapes == summary.filed + summary.failed + summary.suppressed
      ensures summary.filed + summary.failed <= maxIssues
      ensures summary.suppressed > 0 ==> summary.filed + summary.failed == maxIssues
    {
      hide Distinct, IterationsOf, FirstOutcome;
      comments := [];
      for i := 0 to |order|
        invariant comments == CommentsDue(events, maxIssues, i)
      {
        var shape := shapes[order[i]];
        var repeats := shape.iterations[if |shape.iterations| > 0 then 1 else 0..];
        if shape.url != "" && repeats != [] {
          comments := comments + [(shape.url, repeats)];
        }
      }
      summary := Summary(filed, failed, suppressed, |order|);
    }
  }

  /** Iterations recorded under the first n shapes. */
  function Recorded(events: seq<Event>, n: nat): nat
    requires n <= |Distinct(events)|
  {
    if n == 0 then 0 else Recorded(events, n - 1) + |IterationsOf(events, Distinct(events)[n - 1])|
  }

  /** The shapes share the iterations out: each divergence is recorded once, under one shape. */
  lemma {:induction false} EachRecordedOnce(events: seq<Event>)
    ensures Recorded(events, |Distinct(events)|) == |events|
  {
    if events != [] {
      var init, e := events[..|events| - 1], events[|events| - 1];
      assert events == init + [e];
      EachRecordedOnce(init);
      OneMoreRecorded(init, e);
    }
  }

  lemma OneMoreRecorded(events: seq<Event>, e: Event)
    ensures Recorded(events + [e], |Distinct(events + [e])|) == Recorded(events, |Distinct(events)|) + 1
  {
    hide Distinct, IterationsOf, Recorded;
    var n := |Distinct(events)|;
    EventStep(events, e);
    DistinctOnce(events);
    RecordedStep(events, e, n);
    assert Distinct(events)[..n] == Distinct(events);
    if e.key !in Distinct(events) {
      NeverSeen(events, e.key);
      assert IterationsOf(events + [e], e.key) == [e.iteration];
      RecordedUnfold(events + [e], n + 1);
    }
  }

  lemma RecordedUnfold(events: seq<Event>, n: nat)
    requires 0 < n <= |Distinct(events)|
    ensures Recorded(events, n) == Recorded(events, n - 1) + |IterationsOf(events, Distinct(events)[n - 1])|
  {
    hide Distinct, IterationsOf;
  }

  lemma {:induction false} RecordedStep(events: seq<Event>, e: Event, n: nat)
    requires n <= |Distinct(events)| && forall i, j :: 0 <= i < j < |Distinct(events)| ==>
              Distinct(events)[i] != Distinct(events)[j]
    ensures n <= |Distinct(events + [e])|
    ensures Recorded(events + [e], n) == Recorded(events, n) + if e.key in Distinct(events)[..n] then 1 else 0
  {
    hide Distinct, IterationsOf;
    EventStep(events, e);
    if n > 0 {
      RecordedStep(events, e, n - 1);
      RecordedUnfold(events, n);
      RecordedUnfold(events + [e], n);
      hide Recorded;
      var key := Distinct(events)[n - 1];
      assert Distinct(events + [e])[n - 1] == key;
      assert IterationsOf(events + [e], key) == IterationsOf(events, key) + if e.key == key then [e.iteration] else [];
      assert Distinct(events)[..n] == Distinct(events)[..n - 1] + [key];
      assert key !in Distinct(events)[..n - 1];
    }
  }

  ghost function RepeatedBelow(events: seq<Event>, max: nat, n: nat): set<nat> {
    set i: nat | i < n && Repeated(events, max, i)
  }

  /** There are as many comments as filed shapes that repeated. */
  lemma {:induction false} CommentCount(events: seq<Event>, max: nat, n: nat)
    requires n <= |Distinct(events)|
    ensures |CommentsDue(events, max, n)| == |RepeatedBelow(events, max, n)|
  {
    hide Distinct, CommentOf, Repeated;
    if n > 0 {
      CommentCount(events, max, n - 1);
      var before, now := RepeatedBelow(events, max, n - 1), RepeatedBelow(events, max, n);
      assert now == if Repeated(events, max, n - 1) then before + {n - 1} else before;
    } else {
      assert RepeatedBelow(events, max, 0) == {};
    }
  }

  /** Each of those shapes has its comment. */
  lemma {:induction false} CommentPresent(events: seq<Event>, max: nat, n: nat, i: nat)
    requires i < n <= |Distinct(events)| && Repeated(events, max, i)
    ensures CommentOf(events, i) in CommentsDue(events, max, n)
  {
    hide Distinct, CommentOf, Repeated;
    if i < n - 1 {
      CommentPresent(events, max, n - 1, i);
    }
  }
}
