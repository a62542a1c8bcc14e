/** FunctionalObservable: a user function applied to observables. Its
    arguments are plain observables or other functional observables, so an
    observable is a tree whose leaves are plain observables. */
module Functional {
  import opened Wrappers
  import opened Observables

  datatype Obs = Raw(obs: Observable) | Func(name: string, children: seq<Obs>)

  /** What the constructor learns of `f`: not callable, or its number of
      positional arguments. */
  datatype Callable = NotCallable | Callable(arity: nat)

  /** One element of the `observables` argument: an observable, a string,
      another iterable (a list, a tuple, ...) of such elements, or anything
      else. */
  datatype Arg = Node(node: Obs) | Text(text: string) | Items(items: seq<Arg>) | NotObservable

  /** `MissingName`, `NotCallableF` and `ArityMismatch` are ValueErrors,
      `NotObservableArg` is the TypeError, and `UnrollRecursion` the
      RecursionError of unrolling a non-empty string, each character of
      which is again an iterable string, at any depth of nested iterables. */
  datatype BuildError = MissingName | NotCallableF | UnrollRecursion | ArityMismatch | NotObservableArg

  /** An argument on which `unroll_raw_obs` never returns: it recurses into
      every iterable that is not an observable, so a non-empty string at any
      depth sends it into an endless descent. */
  predicate Endless(a: Arg)
    decreases a
  {
    match a
    case Text(t) => |t| > 0
    case Items(xs) => exists k :: 0 <= k < |xs| && Endless(xs[k])
    case _ => false
  }

  /** `FunctionalObservable(name, f, observables)`: checks in the order of
      the constructor, with the unrolling of the arguments between the
      callability check and the arity check. */
  function MakeFunctional(name: Option<string>, f: Callable, args: seq<Arg>): (r: Result<Obs, BuildError>)
    ensures r.Ok? <==> name.Some? && f.Callable? && |args| == f.arity
                       && forall i :: 0 <= i < |args| ==> args[i].Node?
    ensures r.Ok? ==> r.value.Func? && r.value.name == name.value && |r.value.children| == |args|
                      && forall i :: 0 <= i < |args| ==> r.value.children[i] == args[i].node
    ensures r == Err(UnrollRecursion) <==>
            name.Some? && f.Callable? && exists i :: 0 <= i < |args| && Endless(args[i])
    ensures r == Err(NotObservableArg) <==>
            name.Some? && f.Callable? && |args| == f.arity
            && (forall i :: 0 <= i < |args| ==> !Endless(args[i]))
            && exists i :: 0 <= i < |args| && !args[i].Node?
  {
    if name.None? then Err(MissingName)
    else if f.NotCallable? then Err(NotCallableF)
    else if exists i :: 0 <= i < |args| && Endless(args[i]) then Err(UnrollRecursion)
    else if |args| != f.arity then Err(ArityMismatch)
    else if exists i :: 0 <= i < |args| && !args[i].Node? then Err(NotObservableArg)
    else Ok(Func(name.value, seq(|args|, i requires 0 <= i < |args| => args[i].node)))
  }

  /** A string nested in a list is unrolled like a bare one: with a name and
      a callable `f`, `observables=[[s]]` raises RecursionError for any
      non-empty `s`, whatever the arity. */
  lemma NestedTextRecurses(name: string, arity: nat, s: string, rest: seq<Arg>)
    requires |s| > 0
    ensures MakeFunctional(Some(name), Callable(arity), [Items([Text(s)] + rest)]) == Err(UnrollRecursion)
  {
    var a := Items([Text(s)] + rest);
    assert a.items[0] == Text(s);
    assert Endless(a);
    assert [a][0] == a;
  }

  // ---------------------------------------------------------------------------
  // Leaves and empty nodes

  /** The plain observables of a tree, left to right. */
  function Leaves(o: Obs): seq<Observable>
    decreases o, 1
  {
    match o
    case Raw(x) => [x]
    case Func(_, cs) => LeavesOfAll(cs)
  }

  function LeavesOfAll(cs: seq<Obs>): seq<Observable>
    decreases cs, 0
  {
    if cs == [] then [] else Leaves(cs[0]) + LeavesOfAll(cs[1..])
  }

  /** Some functional node of the tree has no argument. */
  predicate HasEmpty(o: Obs)
    decreases o
  {
    match o
    case Raw(_) => false
    case Func(_, cs) => |cs| == 0 || exists k :: 0 <= k < |cs| && HasEmpty(cs[k])
  }

  lemma {:induction false} LeavesOfAllMember(cs: seq<Obs>, x: Observable)
    ensures x in LeavesOfAll(cs) <==> exists k :: 0 <= k < |cs| && x in Leaves(cs[k])
    decreases cs
  {
    if cs != [] {
      LeavesOfAllMember(cs[1..], x);
      if x in LeavesOfAll(cs[1..]) {
        var k :| 0 <= k < |cs[1..]| && x in Leaves(cs[1..][k]);
        assert cs[k + 1] == cs[1..][k];
      }
      forall k | 1 <= k < |cs| && x in Leaves(cs[k])
        ensures x in LeavesOfAll(cs[1..])
      {
        assert cs[1..][k - 1] == cs[k];
      }
    }
  }

  lemma {:induction false} LeavesOfAllAppend(a: seq<Obs>, b: seq<Obs>)
    ensures LeavesOfAll(a + b) == LeavesOfAll(a) + LeavesOfAll(b)
    decreases a
  {
    if a == [] {
      assert a + b == b;
    } else {
      assert (a + b)[1..] == a[1..] + b;
      LeavesOfAllAppend(a[1..], b);
    }
  }

  /** A tree without an empty node has a first leaf. */
  lemma {:induction false} NoEmptyHasLeaf(o: Obs)
    requires !HasEmpty(o)
    ensures |Leaves(o)| > 0
    decreases o
  {
    match o
    case Raw(_) =>
    case Func(_, cs) =>
      NoEmptyHasLeaf(cs[0]);
  }

  // ---------------------------------------------------------------------------
  // Derived properties

  /** The `mode` property: 'dynamics' when some argument's mode is, else
      'cell-cycle'. */
  function ObsMode(o: Obs): (r: Mode)
    ensures o.Func? ==> r == Dynamics || r == CellCycle
    decreases o
  {
    match o
    case Raw(x) => x.mode
    case Func(_, cs) =>
      if exists k :: 0 <= k < |cs| && ObsMode(cs[k]) == Dynamics then Dynamics else CellCycle
  }

  /** The mode of a functional observable is 'dynamics' exactly when one of
      its leaves is in dynamics mode. */
  lemma {:induction false} ModeRule(o: Obs)
    ensures ObsMode(o) == Dynamics <==> exists x :: x in Leaves(o) && x.mode == Dynamics
    decreases o
  {
    match o
    case Raw(x) =>
    case Func(_, cs) =>
      forall k | 0 <= k < |cs| {
        ModeRule(cs[k]);
      }
      forall x | x in Leaves(o) && x.mode == Dynamics
        ensures exists k :: 0 <= k < |cs| && ObsMode(cs[k]) == Dynamics
      {
        LeavesOfAllMember(cs, x);
        var k :| 0 <= k < |cs| && x in Leaves(cs[k]);
        assert ObsMode(cs[k]) == Dynamics;
      }
      if ObsMode(o) == Dynamics {
        var k :| 0 <= k < |cs| && ObsMode(cs[k]) == Dynamics;
        var x :| x in Leaves(cs[k]) && x.mode == Dynamics;
        LeavesOfAllMember(cs, x);
      }
  }

  /** The timings of the arguments, in order; `None` when one of them
      raises. */
  function TimingsOf(cs: seq<Obs>): (r: Option<seq<Timing>>)
    ensures r.None? <==> exists k :: 0 <= k < |cs| && ObsTiming(cs[k]).None?
    ensures r.Some? ==> |r.value| == |cs| && forall k :: 0 <= k < |cs| ==> ObsTiming(cs[k]) == Some(r.value[k])
    decreases cs, 0
  {
    if cs == [] then Some([])
    else
      match ObsTiming(cs[0])
      case None => None
      case Some(t) =>
        match TimingsOf(cs[1..])
        case None =>
          assert forall k :: 0 <= k < |cs[1..]| ==> cs[1..][k] == cs[k + 1];
          None
        case Some(ts) =>
          assert forall k :: 1 <= k < |cs| ==> cs[k] == cs[1..][k - 1];
          Some([t] + ts)
  }

  /** The `timing` property: 't' when some argument's timing is 't', else
      the first argument's; `None` is the IndexError of a node without
      arguments. */
  function ObsTiming(o: Obs): (r: Option<Timing>)
    ensures o.Func? && |o.children| == 0 ==> r.None?
    ensures o.Func? && r.Some? ==> r == Some(T) || r == ObsTiming(o.children[0])
    decreases o, 1
  {
    match o
    case Raw(x) => Some(x.timing)
    case Func(_, cs) =>
      match TimingsOf(cs)
      case None => None
      case Some(ts) =>
        if T in ts then Some(T)
        else if |ts| == 0 then None
        else Some(ts[0])
  }

  /** Closed form of the timing: undefined iff some node is empty, else 't'
      iff some leaf is at 't', else the timing of the first leaf. */
  lemma {:induction false} TimingRule(o: Obs)
    ensures ObsTiming(o).None? <==> HasEmpty(o)
    ensures ObsTiming(o) == Some(T) <==> !HasEmpty(o) && exists x :: x in Leaves(o) && x.timing == T
    ensures !HasEmpty(o) && ObsTiming(o) != Some(T) ==>
            |Leaves(o)| > 0 && ObsTiming(o) == Some(Leaves(o)[0].timing)
    decreases o
  {
    match o
    case Raw(x) =>
    case Func(_, cs) =>
      forall k | 0 <= k < |cs| {
        TimingRule(cs[k]);
      }
      if !HasEmpty(o) {
        var ts := TimingsOf(cs).value;
        forall x | x in Leaves(o) && x.timing == T
          ensures T in ts
        {
          LeavesOfAllMember(cs, x);
          var k :| 0 <= k < |cs| && x in Leaves(cs[k]);
          assert ObsTiming(cs[k]) == Some(T);
          assert ts[k] == T;
        }
        if T in ts {
          var k :| 0 <= k < |ts| && ts[k] == T;
          var x :| x in Leaves(cs[k]) && x.timing == T;
          LeavesOfAllMember(cs, x);
        } else {
          NoEmptyHasLeaf(cs[0]);
          assert cs == [cs[0]] + cs[1..];
          LeavesOfAllAppend([cs[0]], cs[1..]);
          assert LeavesOfAll([cs[0]]) == Leaves(cs[0]) + LeavesOfAll([]);
        }
      }
  }

  /** The `tref` property: the first argument's when the timing is 'g'. */
  function ObsTref(o: Obs): (r: Option<Tref>)
    ensures r.None? <==> o.Func? && ObsTiming(o).None?
    decreases o
  {
    match o
    case Raw(x) => Some(x.tref)
    case Func(_, cs) =>
      match ObsTiming(o)
      case None => None
      case Some(t) =>
        if t == G then
          TimingFirstChild(o);
          ObsTref(cs[0])
        else Some(NoRef)
  }

  /** A functional observable dated by generations takes the reference time
      of its first leaf; otherwise it has none. */
  lemma {:induction false} TrefRule(o: Obs)
    requires o.Func? && ObsTiming(o).Some?
    ensures ObsTiming(o) == Some(G) ==> |Leaves(o)| > 0 && ObsTref(o) == Some(Leaves(o)[0].tref)
    ensures ObsTiming(o) != Some(G) ==> ObsTref(o) == Some(NoRef)
    decreases o
  {
    if ObsTiming(o) == Some(G) {
      TimingFirstChild(o);
      var c := o.children[0];
      if c.Func? {
        TrefRule(c);
      }
    }
  }

  /** A node dated 'g' has a first argument dated 'g' that leads its
      leaves. */
  lemma {:induction false} TimingFirstChild(o: Obs)
    requires o.Func? && ObsTiming(o) == Some(G)
    ensures |o.children| > 0 && ObsTiming(o.children[0]) == Some(G)
    ensures |Leaves(o.children[0])| > 0 && |Leaves(o)| > 0 && Leaves(o)[0] == Leaves(o.children[0])[0]
  {
    var cs := o.children;
    TimingRule(o);
    var ts := TimingsOf(cs).value;
    assert ObsTiming(cs[0]) == Some(G);
    TimingRule(cs[0]);
    assert cs == [cs[0]] + cs[1..];
    LeavesOfAllAppend([cs[0]], cs[1..]);
    assert LeavesOfAll([cs[0]]) == Leaves(cs[0]) + LeavesOfAll([]);
  }

  /** The `label` property: the name, then each argument's label followed by
      ', ', in parentheses. */
  function ObsLabel(o: Obs): (r: string)
    ensures o.Raw? ==> r == Label(o.obs)
    ensures o.Func? ==> |r| > |o.name| && r[..|o.name| + 1] == o.name + "(" && r[|r| - 1] == ')'
    decreases o, 1
  {
    match o
    case Raw(x) => Label(x)
    case Func(n, cs) => n + "(" + ArgLabels(cs) + ")"
  }

  function ArgLabels(cs: seq<Obs>): string
    decreases cs, 0
  {
    if cs == [] then "" else ObsLabel(cs[0]) + ", " + ArgLabels(cs[1..])
  }

  // ---------------------------------------------------------------------------
  // Flattening

  /** The functional nodes of a tree, each after all the functional nodes
      nested in it. */
  function FuncNodes(o: Obs): seq<Obs>
    decreases o, 1
  {
    match o
    case Raw(_) => []
    case Func(_, cs) => FuncNodesOfAll(cs) + [o]
  }

  function FuncNodesOfAll(cs: seq<Obs>): seq<Obs>
    decreases cs, 0
  {
    if cs == [] then [] else FuncNodes(cs[0]) + FuncNodesOfAll(cs[1..])
  }

  lemma {:induction false} FuncNodesOfAllAppend(a: seq<Obs>, b: seq<Obs>)
    ensures FuncNodesOfAll(a + b) == FuncNodesOfAll(a) + FuncNodesOfAll(b)
    decreases a
  {
    if a == [] {
      assert a + b == b;
    } else {
      assert (a + b)[1..] == a[1..] + b;
      FuncNodesOfAllAppend(a[1..], b);
    }
  }

  /** The argument of `unroll_raw_obs` and `unroll_func_obs`: an observable
      or a (nested) list of them. */
  datatype Item = One(o: Obs) | Many(items: seq<Item>)

  /** `unroll_raw_obs(item, [])`. */
  function RawOfItem(it: Item): seq<Observable>
    decreases it, 1
  {
    match it
    case One(o) => Leaves(o)
    case Many(xs) => RawOfItems(xs)
  }

  function RawOfItems(xs: seq<Item>): seq<Observable>
    decreases xs, 0
  {
    if xs == [] then [] else RawOfItem(xs[0]) + RawOfItems(xs[1..])
  }

  /** `unroll_func_obs(item, [])`: a list is not a FunctionalObservable and
      gives nothing. */
  function FuncOfItem(it: Item): seq<Obs> {
    match it
    case One(o) => FuncNodes(o)
    case Many(_) => []
  }

  function FuncOfItems(xs: seq<Item>): seq<Obs> {
    if xs == [] then [] else FuncOfItem(xs[0]) + FuncOfItems(xs[1..])
  }

  lemma {:induction false} RawOfItemsAppend(a: seq<Item>, b: seq<Item>)
    ensures RawOfItems(a + b) == RawOfItems(a) + RawOfItems(b)
    decreases a
  {
    if a == [] {
      assert a + b == b;
    } else {
      assert (a + b)[1..] == a[1..] + b;
      RawOfItemsAppend(a[1..], b);
    }
  }

  lemma {:induction false} FuncOfItemsAppend(a: seq<Item>, b: seq<Item>)
    ensures FuncOfItems(a + b) == FuncOfItems(a) + FuncOfItems(b)
    decreases a
  {
    if a == [] {
      assert a + b == b;
    } else {
      assert (a + b)[1..] == a[1..] + b;
      FuncOfItemsAppend(a[1..], b);
    }
  }

  /** `unroll_raw_obs` on one observable, appending to `flatten`. */
  method UnrollRawNode(o: Obs, flatten: seq<Observable>) returns (r: seq<Observable>)
    ensures r == flatten + Leaves(o)
    decreases o
  {
    match o
    case Raw(x) =>
      r := flatten + [x];
    case Func(_, cs) =>
      r := flatten;
      var i := 0;
      while i < |cs|
        invariant 0 <= i <= |cs|
        invariant r == flatten + LeavesOfAll(cs[..i])
      {
        r := UnrollRawNode(cs[i], r);
        assert cs[..i + 1] == cs[..i] + [cs[i]];
        LeavesOfAllAppend(cs[..i], [cs[i]]);
        assert LeavesOfAll([cs[i]]) == Leaves(cs[i]) + LeavesOfAll([]);
        i := i + 1;
      }
      assert cs[..i] == cs;
  }

  /** `unroll_raw_obs(item, flatten)`. */
  method UnrollRawObs(it: Item, flatten: seq<Observable>) returns (r: seq<Observable>)
    ensures r == flatten + RawOfItem(it)
    decreases it
  {
    match it
    case One(o) =>
      r := UnrollRawNode(o, flatten);
    case Many(xs) =>
      r := flatten;
      var i := 0;
      while i < |xs|
        invariant 0 <= i <= |xs|
        invariant r == flatten + RawOfItems(xs[..i])
      {
        r := UnrollRawObs(xs[i], r);
        assert xs[..i + 1] == xs[..i] + [xs[i]];
        RawOfItemsAppend(xs[..i], [xs[i]]);
        assert RawOfItems([xs[i]]) == RawOfItem(xs[i]) + RawOfItems([]);
        i := i + 1;
      }
      assert xs[..i] == xs;
  }

  /** `unroll_func_obs` on one observable: the nested functional nodes
      first, then the node itself. */
  method UnrollFuncNode(o: Obs, flatten: seq<Obs>) returns (r: seq<Obs>)
    ensures r == flatten + FuncNodes(o)
    decreases o
  {
    r := flatten;
    if o.Func? {
      var cs := o.children;
      var i := 0;
      while i < |cs|
        invariant 0 <= i <= |cs|
        invariant r == flatten + FuncNodesOfAll(cs[..i])
      {
        r := UnrollFuncNode(cs[i], r);
        assert cs[..i + 1] == cs[..i] + [cs[i]];
        FuncNodesOfAllAppend(cs[..i], [cs[i]]);
        assert FuncNodesOfAll([cs[i]]) == FuncNodes(cs[i]) + FuncNodesOfAll([]);
        i := i + 1;
      }
      assert cs[..i] == cs;
      r := r + [o];
    }
  }

  /** `unroll_func_obs(item, flatten)`, iterating over the arguments of a
      functional observable. */
  method UnrollFuncObs(it: Item, flatten: seq<Obs>) returns (r: seq<Obs>)
    ensures r == flatten + FuncOfItem(it)
  {
    if it.One? {
      r := UnrollFuncNode(it.o, flatten);
    } else {
      r := flatten;
    }
  }

  /** `unroll_func_obs` as written iterates over the FunctionalObservable
      itself, which is not iterable: the TypeError is `None`. */
  function FuncOfItemAsWritten(it: Item): Option<seq<Obs>> {
    match it
    case One(Func(_, _)) => None
    case _ => Some([])
  }

  /** Any functional observable shows the difference: as written the call
      raises, where the intended traversal lists the node last. */
  lemma UnrollFuncAsWrittenRaises(name: string, cs: seq<Obs>)
    ensures FuncOfItemAsWritten(One(Func(name, cs))).None?
    ensures var r := FuncOfItem(One(Func(name, cs))); |r| > 0 && r[|r| - 1] == Func(name, cs)
  {
  }

  // ---------------------------------------------------------------------------
  // Dependency order

  /** Every functional argument of `o` occurs in `pre`. */
  predicate DepsIn(o: Obs, pre: seq<Obs>) {
    o.Func? ==> forall k :: 0 <= k < |o.children| && o.children[k].Func? ==> o.children[k] in pre
  }

  /** Each functional observable comes after the functional observables it
      is built from: building in this order meets no missing input. */
  predicate DepsFirst(s: seq<Obs>) {
    forall i :: 0 <= i < |s| ==> DepsIn(s[i], s[..i])
  }

  lemma DepsInMono(o: Obs, p: seq<Obs>, q: seq<Obs>)
    requires DepsIn(o, p)
    requires forall y :: y in p ==> y in q
    ensures DepsIn(o, q)
  {
  }

  lemma {:induction false} DepsFirstAppend(a: seq<Obs>, b: seq<Obs>)
    requires DepsFirst(a) && DepsFirst(b)
    ensures DepsFirst(a + b)
  {
    var s := a + b;
    forall i | 0 <= i < |s|
      ensures DepsIn(s[i], s[..i])
    {
      if i < |a| {
        assert s[i] == a[i] && s[..i] == a[..i];
      } else {
        assert s[i] == b[i - |a|];
        assert s[..i] == a + b[..i - |a|];
        DepsInMono(b[i - |a|], b[..i - |a|], s[..i]);
      }
    }
  }

  /** The order of `unroll_func_obs` builds every node after its inputs. */
  lemma {:induction false} FuncNodesDepsFirst(o: Obs)
    ensures DepsFirst(FuncNodes(o))
    ensures forall y :: y in FuncNodes(o) ==> y.Func?
    ensures o.Func? ==> o in FuncNodes(o)
    decreases o, 1
  {
    if o.Func? {
      var cs := o.children;
      FuncNodesOfAllDepsFirst(cs);
      var pre := FuncNodesOfAll(cs);
      forall k | 0 <= k < |cs| && cs[k].Func?
        ensures cs[k] in pre
      {
        FuncNodesDepsFirst(cs[k]);
      }
      var s := pre + [o];
      forall i | 0 <= i < |s|
        ensures DepsIn(s[i], s[..i])
      {
        if i < |pre| {
          assert s[i] == pre[i] && s[..i] == pre[..i];
        } else {
          assert s[..i] == pre;
        }
      }
    }
  }

  lemma {:induction false} FuncNodesOfAllDepsFirst(cs: seq<Obs>)
    ensures DepsFirst(FuncNodesOfAll(cs))
    ensures forall y :: y in FuncNodesOfAll(cs) ==> y.Func?
    ensures forall k :: 0 <= k < |cs| && cs[k].Func? ==> cs[k] in FuncNodesOfAll(cs)
    decreases cs, 0
  {
    if cs != [] {
      FuncNodesDepsFirst(cs[0]);
      FuncNodesOfAllDepsFirst(cs[1..]);
      DepsFirstAppend(FuncNodes(cs[0]), FuncNodesOfAll(cs[1..]));
      assert forall k :: 1 <= k < |cs| ==> cs[k] == cs[1..][k - 1];
    }
  }

  lemma {:induction false} FuncOfItemsDepsFirst(xs: seq<Item>)
    ensures DepsFirst(FuncOfItems(xs))
  {
    if xs != [] {
      if xs[0].One? {
        FuncNodesDepsFirst(xs[0].o);
      }
      FuncOfItemsDepsFirst(xs[1..]);
      DepsFirstAppend(FuncOfItem(xs[0]), FuncOfItems(xs[1..]));
    }
  }

  // ---------------------------------------------------------------------------
  // set_observable_list

  /** Appends each element of `xs` not yet present, in order. */
  function AddNew<T(==)>(acc: seq<T>, xs: seq<T>): seq<T>
    decreases |xs|
  {
    if xs == [] then acc
    else AddNew(if xs[0] in acc then acc else acc + [xs[0]], xs[1..])
  }

  /** The inner loops of `set_observable_list`: `if obs not in lst: lst.append(obs)`. */
  method AppendNew<T(==)>(acc: seq<T>, xs: seq<T>) returns (r: seq<T>)
    ensures r == AddNew(acc, xs)
  {
    r := acc;
    var i := 0;
    while i < |xs|
      invariant 0 <= i <= |xs|
      invariant AddNew(acc, xs) == AddNew(r, xs[i..])
    {
      assert xs[i..][1..] == xs[i + 1..];
      if xs[i] !in r {
        r := r + [xs[i]];
      }
      i := i + 1;
    }
  }

  lemma {:induction false} AddNewAppend<T>(acc: seq<T>, a: seq<T>, b: seq<T>)
    ensures AddNew(acc, a + b) == AddNew(AddNew(acc, a), b)
    decreases |a|
  {
    if a == [] {
      assert a + b == b;
    } else {
      assert (a + b)[0] == a[0];
      assert (a + b)[1..] == a[1..] + b;
      AddNewAppend(if a[0] in acc then acc else acc + [a[0]], a[1..], b);
    }
  }

  /** The result keeps `acc` as its prefix, holds no duplicate, and holds
      exactly the elements of `acc` and `xs`. */
  lemma {:induction false} AddNewFacts<T>(acc: seq<T>, xs: seq<T>)
    requires NoDup(acc)
    ensures |AddNew(acc, xs)| >= |acc| && AddNew(acc, xs)[..|acc|] == acc
    ensures NoDup(AddNew(acc, xs))
    ensures forall y :: y in AddNew(acc, xs) <==> y in acc || y in xs
    decreases |xs|
  {
    if xs != [] {
      var next := if xs[0] in acc then acc else acc + [xs[0]];
      AddNewFacts(next, xs[1..]);
      assert next[..|acc|] == acc;
      assert AddNew(acc, xs)[..|acc|] == AddNew(acc, xs)[..|next|][..|acc|];
      assert forall y :: y in xs <==> y == xs[0] || y in xs[1..];
    }
  }

  /** De-duplication keeps the first occurrence, so an order that puts
      inputs before their users stays such an order. */
  lemma {:induction false} AddNewDepsFirst(acc: seq<Obs>, xs: seq<Obs>)
    requires DepsFirst(acc)
    requires forall i :: 0 <= i < |xs| ==> DepsIn(xs[i], acc + xs[..i])
    ensures DepsFirst(AddNew(acc, xs))
    decreases |xs|
  {
    if xs != [] {
      var next := if xs[0] in acc then acc else acc + [xs[0]];
      if xs[0] !in acc {
        assert xs[..0] == [];
        assert acc + xs[..0] == acc;
        forall i | 0 <= i < |next|
          ensures DepsIn(next[i], next[..i])
        {
          if i < |acc| {
            assert next[i] == acc[i] && next[..i] == acc[..i];
          } else {
            assert next[..i] == acc;
          }
        }
      }
      forall i | 0 <= i < |xs[1..]|
        ensures DepsIn(xs[1..][i], next + xs[1..][..i])
      {
        assert xs[1..][i] == xs[i + 1];
        assert xs[..i + 1] == [xs[0]] + xs[1..][..i];
        DepsInMono(xs[i + 1], acc + xs[..i + 1], next + xs[1..][..i]);
      }
      AddNewDepsFirst(next, xs[1..]);
    }
  }

  /** One pass of the loops of `set_observable_list`: the raw and the
      functional observables of `it`, each appended when not yet present. */
  method AddItem(rawObs: seq<Observable>, funcObs: seq<Obs>, it: Item)
    returns (rawObs': seq<Observable>, funcObs': seq<Obs>)
    ensures rawObs' == AddNew(rawObs, RawOfItem(it))
    ensures funcObs' == AddNew(funcObs, FuncOfItem(it))
  {
    var raws := UnrollRawObs(it, []);
    assert raws == RawOfItem(it);
    rawObs' := AppendNew(rawObs, raws);
    var funcs := UnrollFuncObs(it, []);
    assert funcs == FuncOfItem(it);
    funcObs' := AppendNew(funcObs, funcs);
  }

  /** The loop of `set_observable_list` over the filters, or over `args`. */
  method AddItems(rawObs: seq<Observable>, funcObs: seq<Obs>, xs: seq<Item>)
    returns (rawObs': seq<Observable>, funcObs': seq<Obs>)
    ensures rawObs' == AddNew(rawObs, RawOfItems(xs))
    ensures funcObs' == AddNew(funcObs, FuncOfItems(xs))
  {
    rawObs', funcObs' := rawObs, funcObs;
    var i := 0;
    while i < |xs|
      invariant 0 <= i <= |xs|
      invariant rawObs' == AddNew(rawObs, RawOfItems(xs[..i]))
      invariant funcObs' == AddNew(funcObs, FuncOfItems(xs[..i]))
    {
      rawObs', funcObs' := AddItem(rawObs', funcObs', xs[i]);
      Step(rawObs, funcObs, xs, i);
      i := i + 1;
    }
    assert xs[..i] == xs;
  }

  /** `set_observable_list(*args, filters=filters)`, each filter given by its
      `obs` attribute. */
  method SetObservableList(args: seq<Item>, filters: seq<Item>) returns (rawObs: seq<Observable>, funcObs: seq<Obs>)
    ensures rawObs == AddNew([], RawOfItems(filters + args))
    ensures funcObs == AddNew([], FuncOfItems(filters + args))
  {
    rawObs, funcObs := AddItems([], [], filters);
    rawObs, funcObs := AddItems(rawObs, funcObs, args);
    RawOfItemsAppend(filters, args);
    AddNewAppend([], RawOfItems(filters), RawOfItems(args));
    FuncOfItemsAppend(filters, args);
    AddNewAppend([], FuncOfItems(filters), FuncOfItems(args));
  }

  /** One more item extends both lists by its own unrolled observables. */
  lemma Step(rawObs: seq<Observable>, funcObs: seq<Obs>, xs: seq<Item>, i: nat)
    requires i < |xs|
    ensures AddNew(rawObs, RawOfItems(xs[..i + 1])) == AddNew(AddNew(rawObs, RawOfItems(xs[..i])), RawOfItem(xs[i]))
    ensures AddNew(funcObs, FuncOfItems(xs[..i + 1])) == AddNew(AddNew(funcObs, FuncOfItems(xs[..i])), FuncOfItem(xs[i]))
  {
    var x := xs[i];
    assert xs[..i + 1] == xs[..i] + [x];
    assert [x][1..] == [];
    RawOfItemsAppend(xs[..i], [x]);
    assert RawOfItems([x]) == RawOfItem(x) + RawOfItems([]);
    assert RawOfItems([x]) == RawOfItem(x);
    AddNewAppend(rawObs, RawOfItems(xs[..i]), RawOfItem(x));
    FuncOfItemsAppend(xs[..i], [x]);
    assert FuncOfItems([x]) == FuncOfItem(x) + FuncOfItems([]);
    assert FuncOfItems([x]) == FuncOfItem(x);
    AddNewAppend(funcObs, FuncOfItems(xs[..i]), FuncOfItem(x));
  }

  /** What `set_observable_list` promises: each observable once, the
      observables of the filters first, and every functional observable
      after the functional observables it is built from. */
  lemma {:induction false} ObservableListFacts(args: seq<Item>, filters: seq<Item>)
    ensures var raws := AddNew([], RawOfItems(filters + args));
            NoDup(raws)
            && (forall x :: x in raws <==> x in RawOfItems(filters + args))
            && |AddNew([], RawOfItems(filters))| <= |raws|
            && raws[..|AddNew([], RawOfItems(filters))|] == AddNew([], RawOfItems(filters))
    ensures var funcs := AddNew([], FuncOfItems(filters + args));
            NoDup(funcs) && DepsFirst(funcs)
            && (forall y :: y in funcs <==> y in FuncOfItems(filters + args))
            && |AddNew([], FuncOfItems(filters))| <= |funcs|
            && funcs[..|AddNew([], FuncOfItems(filters))|] == AddNew([], FuncOfItems(filters))
  {
    var rf, ra := RawOfItems(filters), RawOfItems(args);
    RawOfItemsAppend(filters, args);
    AddNewAppend([], rf, ra);
    AddNewFacts([], rf + ra);
    AddNewFacts([], rf);
    AddNewFacts(AddNew([], rf), ra);
    var ff, fa := FuncOfItems(filters), FuncOfItems(args);
    FuncOfItemsAppend(filters, args);
    AddNewAppend([], ff, fa);
    AddNewFacts([], ff + fa);
    AddNewFacts([], ff);
    AddNewFacts(AddNew([], ff), fa);
    FuncOfItemsDepsFirst(filters + args);
    var xs := FuncOfItems(filters + args);
    forall i | 0 <= i < |xs|
      ensures DepsIn(xs[i], [] + xs[..i])
    {
      assert [] + xs[..i] == xs[..i];
    }
    AddNewDepsFirst([], xs);
  }

  // ---------------------------------------------------------------------------
  // The shared default list of `unroll_raw_obs`

  /** `set_observable_list` as written: `unroll_raw_obs(item)` is called
      without its second argument, and Python creates the default
      `flatten=[]` once, so each call appends to the one list left by the
      calls before it (`shared`, which also holds what earlier callers such
      as the FunctionalObservable constructor unrolled) and returns it
      whole. */
  function RawListAsWritten(acc: seq<Observable>, shared: seq<Observable>, xs: seq<Item>): seq<Observable>
    decreases |xs|
  {
    if xs == [] then acc
    else
      var returned := shared + RawOfItem(xs[0]);
      RawListAsWritten(AddNew(acc, returned), returned, xs[1..])
  }

  lemma {:induction false} AddNewKeeps<T>(acc: seq<T>, xs: seq<T>)
    ensures forall y :: y in acc || y in xs ==> y in AddNew(acc, xs)
    decreases |xs|
  {
    if xs != [] {
      var acc' := if xs[0] in acc then acc else acc + [xs[0]];
      AddNewKeeps(acc', xs[1..]);
      forall y | y in xs
        ensures y in acc' || y in xs[1..]
      {
        var k :| 0 <= k < |xs| && xs[k] == y;
        if k > 0 {
          assert xs[1..][k - 1] == y;
        }
      }
    }
  }

  lemma {:induction false} RawListKeeps(acc: seq<Observable>, shared: seq<Observable>, xs: seq<Item>)
    ensures forall y :: y in acc ==> y in RawListAsWritten(acc, shared, xs)
    decreases |xs|
  {
    if xs != [] {
      var returned := shared + RawOfItem(xs[0]);
      AddNewKeeps(acc, returned);
      RawListKeeps(AddNew(acc, returned), returned, xs[1..]);
    }
  }

  /** As written, whatever the shared default list already holds reaches
      the raw list of any call with at least one filter or argument. */
  lemma SharedDefaultLeaks(shared: seq<Observable>, xs: seq<Item>)
    requires xs != []
    ensures forall y :: y in shared ==> y in RawListAsWritten([], shared, xs)
  {
    var returned := shared + RawOfItem(xs[0]);
    AddNewKeeps([], returned);
    RawListKeeps(AddNew([], returned), returned, xs[1..]);
  }

  /** The smallest case: after a plain observable `x` was unrolled once,
      `set_observable_list(y)` lists `x` before `y`, where the intended
      result is `[y]`. */
  lemma UnrollRawSharedLeaks(x: Observable, y: Observable)
    requires x != y
    ensures RawListAsWritten([], [x], [One(Raw(y))]) == [x, y]
    ensures AddNew([], RawOfItems([One(Raw(y))])) == [y]
  {
    assert Leaves(Raw(y)) == [y];
    assert RawOfItem(One(Raw(y))) == [y];
    assert [x] + [y] == [x, y];
    assert [x, y][1..] == [y] && [y][1..] == [] && [] + [x] == [x] && [x] + [y] == [x, y];
    assert AddNew([], [x, y]) == AddNew([x], [y]);
    assert y !in [x];
    assert AddNew([x], [y]) == AddNew([x, y], []);
    assert RawListAsWritten([], [x], [One(Raw(y))]) == RawListAsWritten(AddNew([], [x, y]), [x, y], []);
    assert RawOfItems([One(Raw(y))]) == [y] + RawOfItems([]);
  }
}
