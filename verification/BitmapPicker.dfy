/**
 The random bitmap plan: every emitted command line is one the tools must accept, in the picker's own shadow state.
 */
module BitmapPicker {
  import opened Options
  import opened Decimals

  datatype Bitmap = Bitmap(enabled: bool, granularity: nat)

  type State = map<string, Bitmap>

  const MAX_LIVE: nat := 6
  const GRANULARITIES: seq<nat> := [512, 4096, 65536, 131072, 262144, 1048576, 2097152]

  function Name(n: nat): string {
    "b" + Decimal(n)
  }

  /** Different counters give different names. */
  lemma NamesDiffer(m: nat, n: nat)
    requires Name(m) == Name(n)
    ensures m == n
  {
    assert Name(m)[1..] == Decimal(m) && Name(n)[1..] == Decimal(n);
    DecimalRoundTrip(m);
    DecimalRoundTrip(n);
  }

  /** A power of two from 512 to 2 MiB. */
  predicate ValidGranularity(g: nat) {
    g in {512, 1024, 2048, 4096, 8192, 16384, 32768, 65536, 131072, 262144, 524288, 1048576, 2097152}
  }

  /** What a tool does with one command line; None if it refuses it. */
  function Apply(args: seq<string>, standard: nat, st: State): Option<State> {
    if |args| == 2 && args[0] == "--add" && args[1] !in st then
      Some(st[args[1] := Bitmap(true, standard)])
    else if |args| == 3 && args[0] == "--add" && args[1] == "--disable" && args[2] !in st then
      Some(st[args[2] := Bitmap(false, standard)])
    else if |args| == 4 && args[0] == "--add" && args[1] == "-g" && args[3] !in st then
      match ParseDecimal(args[2])
      case Some(g) => if ValidGranularity(g) then Some(st[args[3] := Bitmap(true, g)]) else None
      case None => None
    else if |args| == 2 && args[0] == "--remove" && args[1] in st then Some(st - {args[1]})
    else if |args| == 2 && args[0] == "--clear" && args[1] in st then Some(st)
    else if |args| == 2 && args[0] == "--enable" && args[1] in st && !st[args[1]].enabled then
      Some(st[args[1] := st[args[1]].(enabled := true)])
    else if |args| == 2 && args[0] == "--disable" && args[1] in st && st[args[1]].enabled then
      Some(st[args[1] := st[args[1]].(enabled := false)])
    else if |args| == 3 && args[0] == "--merge" && args[1] in st && args[2] in st && args[1] != args[2]
            && st[args[2]].enabled && st[args[1]].granularity == st[args[2]].granularity then Some(st)
    else None
  }

  /** A whole plan replayed on an image without bitmaps. */
  function Replay(plan: seq<seq<string>>, standard: nat): Option<State> {
    if plan == [] then Some(map[])
    else
      match Replay(plan[..|plan| - 1], standard)
      case None => None
      case Some(st) => Apply(plan[|plan| - 1], standard, st)
  }

  /** The names a plan adds, in order. */
  function Added(plan: seq<seq<string>>): seq<string> {
    if plan == [] then []
    else
      var last := plan[|plan| - 1];
      Added(plan[..|plan| - 1]) + if |last| >= 2 && last[0] == "--add" then [last[|last| - 1]] else []
  }

  predicate AllDistinct<T(==)>(s: seq<T>) {
    forall i, j :: 0 <= i < j < |s| ==> s[i] != s[j]
  }

  lemma ReplayStep(plan: seq<seq<string>>, args: seq<string>, standard: nat)
    requires Replay(plan, standard).Some?
    ensures Replay(plan + [args], standard) == Apply(args, standard, Replay(plan, standard).value)
    ensures Added(plan + [args]) == Added(plan) + if |args| >= 2 && args[0] == "--add" then [args[|args| - 1]] else []
  {
    assert (plan + [args])[..|plan|] == plan;
  }

  /** Every state on the way keeps to the limit. */
  predicate StaysSmall(plan: seq<seq<string>>, standard: nat) {
    forall n :: 0 <= n <= |plan| ==>
      Replay(plan[..n], standard).Some? && |Replay(plan[..n], standard).value| <= MAX_LIVE
  }

  datatype Action = Add | AddDisabled | Remove | Clear | Enable | Disable | Merge

  predicate Mergeable(st: State, src: string, dst: string) {
    src in st && dst in st && st[dst].enabled && src != dst && st[src].granularity == st[dst].granularity
  }

  function Clamp(clusterSize: nat): nat {
    if clusterSize < 4096 then 4096 else if clusterSize > 65536 then 65536 else clusterSize
  }

  class Picker {
    const standard: nat
    var existing: State
    var counter: nat
    var plan: seq<seq<string>>

    constructor (clusterSize: nat)
      ensures Valid() && standard == Clamp(clusterSize) && plan == [] && fresh(this)
    {
      standard := Clamp(clusterSize);
      existing, counter, plan := map[], 0, [];
    }

    /** The shadow state is what the plan so far leads to, and names are numbered in order. */
    ghost predicate Valid()
      reads this
    {
      && Replay(plan, standard) == Some(existing) && |existing| <= MAX_LIVE && StaysSmall(plan, standard)
      && |Added(plan)| == counter && (forall k :: 0 <= k < counter ==> Added(plan)[k] == Name(k))
      && (forall name :: name in existing ==> name in Added(plan))
    }

    lemma FreshName()
      requires Valid()
      ensures Name(counter) !in existing
    {
      if Name(counter) in existing {
        var k :| 0 <= k < counter && Added(plan)[k] == Name(counter);
        NamesDiffer(k, counter);
      }
    }

    /** Appends a command the current state accepts. */
    method Emit(args: seq<string>, after: State)
      requires Valid() && Apply(args, standard, existing) == Some(after) && |after| <= MAX_LIVE
      requires |args| >= 2 && args[0] == "--add" ==> args[|args| - 1] == Name(counter)
      requires forall name :: name in after ==>
                name in existing || (args[0] == "--add" && |args| >= 2 && name == Name(counter))
      modifies this
      ensures Valid() && existing == after && plan == old(plan) + [args]
      ensures counter == old(counter) + if |args| >= 2 && args[0] == "--add" then 1 else 0
    {
      hide Apply, Name, StaysSmall;
      ReplayStep(plan, args, standard);
      SmallStep(plan, args, standard);
      if |args| >= 2 && args[0] == "--add" {
        counter := counter + 1;
      }
      plan, existing := plan + [args], after;
    }

    method EmitAdd()
      requires Valid() && |existing| < MAX_LIVE
      modifies this
      ensures Valid() && |plan| == |old(plan)| + 1
    {
      hide StaysSmall, Name, Replay;
      FreshName();
      var name := Name(counter);
      if * {
        var k :| 0 <= k < |GRANULARITIES|;
        var g := GRANULARITIES[k];
        DecimalRoundTrip(g);
        Emit(["--add", "-g", Decimal(g), name], existing[name := Bitmap(true, g)]);
      } else {
        Emit(["--add", name], existing[name := Bitmap(true, standard)]);
      }
    }

    method EmitAddDisabled()
      requires Valid() && |existing| < MAX_LIVE
      modifies this
      ensures Valid() && |plan| == |old(plan)| + 1
    {
      hide StaysSmall, Name, Replay;
      FreshName();
      var name := Name(counter);
      Emit(["--add", "--disable", name], existing[name := Bitmap(false, standard)]);
    }

    method EmitRemove(name: string)
      requires Valid() && name in existing
      modifies this
      ensures Valid() && |plan| == |old(plan)| + 1
    {
      hide StaysSmall, Name, Replay, Added;
      Emit(["--remove", name], existing - {name});
    }

    method EmitClear(name: string)
      requires Valid() && name in existing
      modifies this
      ensures Valid() && |plan| == |old(plan)| + 1
    {
      hide StaysSmall, Name, Replay, Added;
      Emit(["--clear", name], existing);
    }

    method EmitSwitch(name: string)
      requires Valid() && name in existing
      modifies this
      ensures Valid() && |plan| == |old(plan)| + 1
    {
      hide StaysSmall, Name, Replay, Added;
      var bitmap := existing[name];
      if bitmap.enabled {
        Emit(["--disable", name], existing[name := bitmap.(enabled := false)]);
      } else {
        Emit(["--enable", name], existing[name := bitmap.(enabled := true)]);
      }
    }

    method EmitMerge(src: string, dst: string)
      requires Valid() && Mergeable(existing, src, dst)
      modifies this
      ensures Valid() && |plan| == |old(plan)| + 1
    {
      hide StaysSmall, Name, Replay, Added;
      Emit(["--merge", src, dst], existing);
    }

    /** One invocation, any of those the shadow state allows. */
    method Step()
      requires Valid()
      modifies this
      ensures Valid() && |plan| == |old(plan)| + 1
    {
      hide Valid;
      var choices: set<Action> := {};
      if |existing| < MAX_LIVE {
        choices := choices + {Add, AddDisabled};
      }
      if existing != map[] {
        choices := choices + {Remove, Clear};
      }
      if exists n :: n in existing && !existing[n].enabled {
        choices := choices + {Enable};
      }
      if exists n :: n in existing && existing[n].enabled {
        choices := choices + {Disable};
      }
      if exists src, dst :: src in existing && dst in existing && Mergeable(existing, src, dst) {
        choices := choices + {Merge};
      }
      if choices == {} {
        choices := {Add};
      }
      var action :| action in choices;
      match action {
        case Add => EmitAdd();
        case AddDisabled => EmitAddDisabled();
        case Remove =>
          var name :| name in existing;
          EmitRemove(name);
        case Clear =>
          var name :| name in existing;
          EmitClear(name);
        case Enable =>
          var name :| name in existing && !existing[name].enabled;
          EmitSwitch(name);
        case Disable =>
          var name :| name in existing && existing[name].enabled;
          EmitSwitch(name);
        case Merge =>
          var src, dst :| src in existing && dst in existing && Mergeable(existing, src, dst);
          EmitMerge(src, dst);
      }
    }
  }

  /** A plan of any length: replaying it never fails, never holds more than six bitmaps and never reuses a name. */
  method Pick(clusterSize: nat, num: nat) returns (plan: seq<seq<string>>, shadow: State)
    ensures |plan| == num
    ensures Replay(plan, Clamp(clusterSize)) == Some(shadow) && StaysSmall(plan, Clamp(clusterSize))
    ensures AllDistinct(Added(plan))
  {
    hide Replay, StaysSmall, Name;
    var picker := new Picker(clusterSize);
    for k := 0 to num
      invariant picker.Valid() && |picker.plan| == k
    {
      picker.Step();
    }
    DistinctNames(Added(picker.plan));
    return picker.plan, picker.existing;
  }

  lemma DistinctNames(names: seq<string>)
    requires forall k :: 0 <= k < |names| ==> names[k] == Name(k)
    ensures AllDistinct(names)
  {
    hide Name;
    forall i, j | 0 <= i < j < |names|
      ensures names[i] != names[j]
    {
      if names[i] == names[j] {
        NamesDiffer(i, j);
      }
    }
  }

  lemma SmallStep(plan: seq<seq<string>>, args: seq<string>, standard: nat)
    requires StaysSmall(plan, standard) && Replay(plan + [args], standard).Some?
    requires |Replay(plan + [args], standard).value| <= MAX_LIVE
    ensures StaysSmall(plan + [args], standard)
  {
    hide Replay;
    var more := plan + [args];
    forall n | 0 <= n <= |more|
      ensures Replay(more[..n], standard).Some? && |Replay(more[..n], standard).value| <= MAX_LIVE
    {
      if n <= |plan| {
        assert more[..n] == plan[..n];
      } else {
        assert more[..n] == more;
      }
    }
  }
}
