/** The colony of tunacell/base/colony.py: a tree of cell identifiers kept
    in a node table (identifier to the ordered identifiers of its children,
    and to its back-pointer), decomposed into lineages. */
module Colonies {
  import opened Wrappers
  import opened Forests

  /** treelib's `is_leaf`: no children. */
  predicate IsLeaf(a: map<Id, seq<Id>>, n: Id) {
    n in a && |a[n]| == 0
  }

  /** `order` lists, for every node, the same children in some order: the
      randomised key of `decompose`. */
  ghost predicate Reorders(order: map<Id, seq<Id>>, a: map<Id, seq<Id>>) {
    order.Keys == a.Keys && forall n :: n in a ==> multiset(order[n]) == multiset(a[n])
  }

  lemma {:induction false} NoDupCounts<T>(s: seq<T>)
    requires NoDup(s)
    ensures forall x :: multiset(s)[x] <= 1
  {
    if s != [] {
      assert NoDup(s[1..]);
      NoDupCounts(s[1..]);
      assert s == [s[0]] + s[1..];
      assert s[0] !in s[1..];
    }
  }

  lemma CountsNoDup<T>(t: seq<T>)
    requires forall x :: multiset(t)[x] <= 1
    ensures NoDup(t)
  {
    forall i, j | 0 <= i < j < |t|
      ensures t[i] != t[j]
    {
      TwoOccurrences(t, i, j);
    }
  }

  lemma TwoOccurrences<T>(t: seq<T>, i: nat, j: nat)
    requires i < j < |t|
    ensures t[i] == t[j] ==> multiset(t)[t[i]] >= 2
  {
    assert t == t[..j] + t[j..];
    assert t[i] in t[..j] && t[j] in t[j..];
    assert multiset(t) == multiset(t[..j]) + multiset(t[j..]);
  }

  /** Reordering children keeps the shape of the tree. */
  lemma ReorderShaped(order: map<Id, seq<Id>>, a: map<Id, seq<Id>>, par: map<Id, Option<Id>>, d: map<Id, nat>, bound: nat)
    requires Shaped(a, par, d, bound) && Reorders(order, a)
    ensures Shaped(order, par, d, bound)
    ensures forall n :: n in a ==> |order[n]| == |a[n]| && forall c :: c in order[n] <==> c in a[n]
  {
    forall n | n in a
      ensures NoDup(order[n]) && |order[n]| == |a[n]| && forall c :: c in order[n] <==> c in a[n]
    {
      NoDupCounts(a[n]);
      CountsNoDup(order[n]);
      assert |multiset(order[n])| == |multiset(a[n])|;
      forall c
        ensures c in order[n] <==> c in a[n]
      {
        assert c in order[n] <==> c in multiset(order[n]);
        assert c in a[n] <==> c in multiset(a[n]);
      }
    }
    forall n, i | n in order && 0 <= i < |order[n]|
      ensures order[n][i] in order && order[n][i] in par && par[order[n][i]] == Some(n)
              && order[n][i] in d && d[order[n][i]] == d[n] + 1
    {
      assert order[n][i] in a[n];
      var j :| 0 <= j < |a[n]| && a[n][j] == order[n][i];
    }
  }

  // ---------------------------------------------------------------------------
  // Depth-first preorder (treelib's `expand_tree`)

  function Preorder(a: map<Id, seq<Id>>, ghost d: map<Id, nat>, ghost bound: nat, n: Id): (p: seq<Id>)
    requires Ranked(a, d, bound) && n in a
    ensures |p| > 0 && p[0] == n
    decreases bound - d[n], 1
  {
    [n] + PreorderFrom(a, d, bound, n, 0)
  }

  /** The preorders of the subtrees of `n`'s children from the `i`-th on. */
  function PreorderFrom(a: map<Id, seq<Id>>, ghost d: map<Id, nat>, ghost bound: nat, n: Id, i: nat): (p: seq<Id>)
    requires Ranked(a, d, bound) && n in a && i <= |a[n]|
    ensures i < |a[n]| ==> |p| > 0 && p[0] == a[n][i]
    decreases bound - d[n], 0, |a[n]| - i
  {
    if i == |a[n]| then [] else Preorder(a, d, bound, a[n][i]) + PreorderFrom(a, d, bound, n, i + 1)
  }

  lemma {:induction false} PreorderFromMember(a: map<Id, seq<Id>>, d: map<Id, nat>, bound: nat,
                                             n: Id, i: nat, y: Id)
    requires Ranked(a, d, bound) && n in a && i <= |a[n]|
    ensures y in PreorderFrom(a, d, bound, n, i) <==> exists j :: i <= j < |a[n]| && y in Preorder(a, d, bound, a[n][j])
    decreases |a[n]| - i
  {
    if i < |a[n]| {
      var first, rest := Preorder(a, d, bound, a[n][i]), PreorderFrom(a, d, bound, n, i + 1);
      assert PreorderFrom(a, d, bound, n, i) == first + rest;
      PreorderFromMember(a, d, bound, n, i + 1, y);
      if y in first {
        assert i <= i < |a[n]| && y in Preorder(a, d, bound, a[n][i]);
      } else if y !in rest {
        forall j | i <= j < |a[n]|
          ensures y !in Preorder(a, d, bound, a[n][j])
        {
        }
      }
    }
  }

  /** In a sequence of node ids, a node that is not a leaf is followed by
      one of its children. */
  ghost predicate Linked(a: map<Id, seq<Id>>, ns: seq<Id>) {
    (forall x :: x in ns ==> x in a)
    && forall i :: 0 <= i < |ns| - 1 && |a[ns[i]]| > 0 ==> ns[i + 1] in a[ns[i]]
  }

  /** A downward path: each node is a child of the one before. */
  ghost predicate Downward(a: map<Id, seq<Id>>, p: seq<Id>) {
    (forall x :: x in p ==> x in a)
    && forall i :: 0 <= i < |p| - 1 ==> p[i + 1] in a[p[i]]
  }

  lemma LinkedConcat(a: map<Id, seq<Id>>, p: seq<Id>, q: seq<Id>)
    requires Linked(a, p) && Linked(a, q)
    requires |p| > 0 && |q| > 0 ==> IsLeaf(a, p[|p| - 1]) || q[0] in a[p[|p| - 1]]
    ensures Linked(a, p + q)
  {
    var r := p + q;
    forall i | 0 <= i < |r| - 1 && |a[r[i]]| > 0
      ensures r[i + 1] in a[r[i]]
    {
      if i < |p| - 1 {
        assert r[i] == p[i] && r[i + 1] == p[i + 1];
      } else if i >= |p| {
        assert r[i] == q[i - |p|] && r[i + 1] == q[i + 1 - |p|];
      }
    }
  }

  /** A preorder ends at a leaf, and each node that is not a leaf is followed
      by its first child in the traversal order. */
  lemma {:induction false} PreorderLinked(a: map<Id, seq<Id>>, d: map<Id, nat>, bound: nat, n: Id)
    requires Ranked(a, d, bound) && n in a
    ensures var p := Preorder(a, d, bound, n);
            Linked(a, p) && IsLeaf(a, p[|p| - 1])
    decreases bound - d[n], 1
  {
    var q := PreorderFrom(a, d, bound, n, 0);
    PreorderFromLinked(a, d, bound, n, 0);
    LinkedConcat(a, [n], q);
    if |q| > 0 {
      assert ([n] + q)[|[n] + q| - 1] == q[|q| - 1];
    }
  }

  lemma {:induction false} PreorderFromLinked(a: map<Id, seq<Id>>, d: map<Id, nat>, bound: nat, n: Id, i: nat)
    requires Ranked(a, d, bound) && n in a && i <= |a[n]|
    ensures var q := PreorderFrom(a, d, bound, n, i);
            Linked(a, q) && (i < |a[n]| ==> IsLeaf(a, q[|q| - 1]))
    decreases bound - d[n], 0, |a[n]| - i
  {
    if i < |a[n]| {
      var p := Preorder(a, d, bound, a[n][i]);
      var q := PreorderFrom(a, d, bound, n, i + 1);
      PreorderLinked(a, d, bound, a[n][i]);
      PreorderFromLinked(a, d, bound, n, i + 1);
      LinkedConcat(a, p, q);
      if |q| > 0 {
        assert (p + q)[|p + q| - 1] == q[|q| - 1];
      } else {
        assert p + q == p;
      }
    }
  }

  // ---------------------------------------------------------------------------
  // Every node once

  /** The ancestor of `x` at depth `k`. */
  ghost function Anc(a: map<Id, seq<Id>>, par: map<Id, Option<Id>>, d: map<Id, nat>, bound: nat, x: Id, k: nat): (y: Id)
    requires Shaped(a, par, d, bound) && x in a && k <= d[x]
    ensures y in a && d[y] == k
    decreases d[x]
  {
    if d[x] == k then x else Anc(a, par, d, bound, par[x].value, k)
  }

  lemma {:induction false} AncStep(a: map<Id, seq<Id>>, par: map<Id, Option<Id>>, d: map<Id, nat>, bound: nat, x: Id, k: nat, j: nat)
    requires Shaped(a, par, d, bound) && x in a && k <= j <= d[x]
    ensures Anc(a, par, d, bound, x, k) == Anc(a, par, d, bound, Anc(a, par, d, bound, x, j), k)
    decreases d[x]
  {
    if d[x] != j {
      AncStep(a, par, d, bound, par[x].value, k, j);
    }
  }

  /** Every node of a subtree lies at least as deep as its top, which is its
      ancestor at that depth. */
  lemma {:induction false} PreorderAnc(a: map<Id, seq<Id>>, par: map<Id, Option<Id>>, d: map<Id, nat>, bound: nat, n: Id, y: Id)
    requires Shaped(a, par, d, bound) && n in a
    requires y in Preorder(a, d, bound, n)
    ensures y in a && d[y] >= d[n] && Anc(a, par, d, bound, y, d[n]) == n
    decreases bound - d[n]
  {
    if y != n {
      PreorderFromMember(a, d, bound, n, 0, y);
      var i :| 0 <= i < |a[n]| && y in Preorder(a, d, bound, a[n][i]);
      var c := a[n][i];
      PreorderAnc(a, par, d, bound, c, y);
      AncStep(a, par, d, bound, y, d[n], d[c]);
    }
  }

  lemma NoDupConcat<T>(p: seq<T>, q: seq<T>)
    requires NoDup(p) && NoDup(q)
    requires forall x :: x in p ==> x !in q
    ensures NoDup(p + q)
  {
    var r := p + q;
    forall i, j | 0 <= i < j < |r|
      ensures r[i] != r[j]
    {
      if i < |p| && j >= |p| {
        assert r[i] in p && r[j] == q[j - |p|];
      } else if i >= |p| {
        assert r[i] == q[i - |p|] && r[j] == q[j - |p|];
      }
    }
  }

  /** A preorder lists each node of the subtree once. */
  lemma {:induction false} PreorderNoDup(a: map<Id, seq<Id>>, par: map<Id, Option<Id>>, d: map<Id, nat>, bound: nat, n: Id)
    requires Shaped(a, par, d, bound) && n in a
    ensures NoDup(Preorder(a, d, bound, n))
    decreases bound - d[n], 1
  {
    var q := PreorderFrom(a, d, bound, n, 0);
    PreorderFromNoDup(a, par, d, bound, n, 0);
    forall y | y in q
      ensures y != n
    {
      PreorderFromMember(a, d, bound, n, 0, y);
      var i :| 0 <= i < |a[n]| && y in Preorder(a, d, bound, a[n][i]);
      PreorderAnc(a, par, d, bound, a[n][i], y);
    }
    NoDupConcat([n], q);
  }

  lemma {:induction false} PreorderFromNoDup(a: map<Id, seq<Id>>, par: map<Id, Option<Id>>, d: map<Id, nat>, bound: nat,
                                            n: Id, i: nat)
    requires Shaped(a, par, d, bound) && n in a && i <= |a[n]|
    ensures NoDup(PreorderFrom(a, d, bound, n, i))
    decreases bound - d[n], 0, |a[n]| - i
  {
    if i < |a[n]| {
      var p := Preorder(a, d, bound, a[n][i]);
      var q := PreorderFrom(a, d, bound, n, i + 1);
      PreorderNoDup(a, par, d, bound, a[n][i]);
      PreorderFromNoDup(a, par, d, bound, n, i + 1);
      forall y | y in p
        ensures y !in q
      {
        if y in q {
          PreorderFromMember(a, d, bound, n, i + 1, y);
          var j :| i + 1 <= j < |a[n]| && y in Preorder(a, d, bound, a[n][j]);
          SiblingsDisjoint(a, par, d, bound, n, i, j, y);
        }
      }
      NoDupConcat(p, q);
    }
  }

  /** The subtrees of two different children share no node. */
  lemma SiblingsDisjoint(a: map<Id, seq<Id>>, par: map<Id, Option<Id>>, d: map<Id, nat>, bound: nat,
                         n: Id, i: nat, j: nat, y: Id)
    requires Shaped(a, par, d, bound) && n in a && i < j < |a[n]|
    requires y in Preorder(a, d, bound, a[n][i])
    ensures y !in Preorder(a, d, bound, a[n][j])
  {
    PreorderAnc(a, par, d, bound, a[n][i], y);
    if y in Preorder(a, d, bound, a[n][j]) {
      PreorderAnc(a, par, d, bound, a[n][j], y);
    }
  }

  /** A subtree's preorder lies within the preorder of any subtree holding
      its top. */
  lemma {:induction false} SubtreeIncluded(a: map<Id, seq<Id>>, d: map<Id, nat>, bound: nat, n: Id, m: Id)
    requires Ranked(a, d, bound) && n in a && m in Preorder(a, d, bound, n)
    ensures m in a && forall y :: y in Preorder(a, d, bound, m) ==> y in Preorder(a, d, bound, n)
    decreases bound - d[n]
  {
    if m != n {
      PreorderFromMember(a, d, bound, n, 0, m);
      var i :| 0 <= i < |a[n]| && m in Preorder(a, d, bound, a[n][i]);
      SubtreeIncluded(a, d, bound, a[n][i], m);
      forall y | y in Preorder(a, d, bound, m)
        ensures y in Preorder(a, d, bound, n)
      {
        PreorderFromMember(a, d, bound, n, 0, y);
      }
    }
  }

  /** In a tree with a single root, the root's preorder holds every node. */
  lemma {:induction false} PreorderCovers(a: map<Id, seq<Id>>, par: map<Id, Option<Id>>, d: map<Id, nat>, bound: nat, r: Id, x: Id)
    requires Shaped(a, par, d, bound) && r in a && x in a
    requires forall n :: n in a && par[n].None? ==> n == r
    ensures x in Preorder(a, d, bound, r)
    decreases d[x]
  {
    if par[x].Some? {
      var p := par[x].value;
      PreorderCovers(a, par, d, bound, r, p);
      SubtreeIncluded(a, d, bound, r, p);
      ChildInPreorder(a, d, bound, p, x);
    }
  }

  lemma ChildInPreorder(a: map<Id, seq<Id>>, d: map<Id, nat>, bound: nat, p: Id, x: Id)
    requires Ranked(a, d, bound) && p in a && x in a[p]
    ensures x in Preorder(a, d, bound, p)
  {
    var i :| 0 <= i < |a[p]| && a[p][i] == x;
    PreorderFromMember(a, d, bound, p, 0, x);
  }

  // ---------------------------------------------------------------------------
  // Cutting a preorder into lineages (`decompose(independent=True)`)

  /** The lineages the loop of `decompose` closes while reading `ns`, `cur`
      being the lineage under construction: a leaf ends one. */
  function Cut(a: map<Id, seq<Id>>, ns: seq<Id>, cur: seq<Id>): (r: seq<seq<Id>>)
    ensures forall p :: p in r ==> |p| > 0
  {
    if ns == [] then []
    else if IsLeaf(a, ns[0]) then [cur + [ns[0]]] + Cut(a, ns[1..], [])
    else Cut(a, ns[1..], cur + [ns[0]])
  }

  function Flatten(ss: seq<seq<Id>>): seq<Id> {
    if ss == [] then [] else ss[0] + Flatten(ss[1..])
  }

  /** The last element of each sequence. */
  function Ends(ss: seq<seq<Id>>): (r: seq<Id>)
    requires forall s :: s in ss ==> |s| > 0
    ensures |r| == |ss|
  {
    if ss == [] then [] else [ss[0][|ss[0]| - 1]] + Ends(ss[1..])
  }

  lemma {:induction false} EndsAt(ss: seq<seq<Id>>, i: nat)
    requires (forall s :: s in ss ==> |s| > 0) && i < |ss|
    ensures Ends(ss)[i] == ss[i][|ss[i]| - 1]
  {
    if i > 0 {
      EndsAt(ss[1..], i - 1);
    }
  }

  /** The leaves among `ns`, in order. */
  function LeavesOf(a: map<Id, seq<Id>>, ns: seq<Id>): seq<Id>
  {
    if ns == [] then [] else (if IsLeaf(a, ns[0]) then [ns[0]] else []) + LeavesOf(a, ns[1..])
  }

  /** The lineages, put end to end, give back what was read. */
  lemma {:induction false} CutFlatten(a: map<Id, seq<Id>>, ns: seq<Id>, cur: seq<Id>)
    requires |ns| > 0 && IsLeaf(a, ns[|ns| - 1])
    ensures Flatten(Cut(a, ns, cur)) == cur + ns
  {
    var rest := ns[1..];
    if IsLeaf(a, ns[0]) {
      var r := Cut(a, rest, []);
      assert ([cur + [ns[0]]] + r)[1..] == r;
      if rest == [] {
        assert Flatten(r) == [];
      } else {
        assert rest[|rest| - 1] == ns[|ns| - 1];
        CutFlatten(a, rest, []);
      }
      assert cur + [ns[0]] + rest == cur + ns;
    } else {
      assert rest[|rest| - 1] == ns[|ns| - 1];
      CutFlatten(a, rest, cur + [ns[0]]);
      assert cur + [ns[0]] + rest == cur + ns;
    }
  }

  /** Each lineage ends at a leaf, one lineage per leaf read, in order. */
  lemma {:induction false} CutEnds(a: map<Id, seq<Id>>, ns: seq<Id>, cur: seq<Id>)
    ensures Ends(Cut(a, ns, cur)) == LeavesOf(a, ns)
  {
    if ns != [] {
      CutEnds(a, ns[1..], if IsLeaf(a, ns[0]) then [] else cur + [ns[0]]);
      if IsLeaf(a, ns[0]) {
        var r := Cut(a, ns[1..], []);
        assert Ends([cur + [ns[0]]] + r) == [ns[0]] + Ends(r);
      }
    }
  }

  /** Every lineage cut from a linked sequence is a downward path. */
  lemma {:induction false} CutDownward(a: map<Id, seq<Id>>, ns: seq<Id>, cur: seq<Id>)
    requires Linked(a, ns) && Downward(a, cur)
    requires |cur| > 0 ==> !IsLeaf(a, cur[|cur| - 1]) && (|ns| > 0 ==> ns[0] in a[cur[|cur| - 1]])
    ensures forall p :: p in Cut(a, ns, cur) ==> Downward(a, p)
  {
    if ns != [] {
      var cur' := cur + [ns[0]];
      assert Downward(a, cur') by {
        forall i | 0 <= i < |cur'| - 1
          ensures cur'[i + 1] in a[cur'[i]]
        {
          if i < |cur| - 1 {
            assert cur'[i] == cur[i] && cur'[i + 1] == cur[i + 1];
          }
        }
      }
      assert Linked(a, ns[1..]) by {
        forall i | 0 <= i < |ns[1..]| - 1 && |a[ns[1..][i]]| > 0
          ensures ns[1..][i + 1] in a[ns[1..][i]]
        {
          assert ns[1..][i] == ns[i + 1] && ns[1..][i + 1] == ns[i + 2];
        }
      }
      if IsLeaf(a, ns[0]) {
        CutDownward(a, ns[1..], []);
      } else {
        CutDownward(a, ns[1..], cur');
      }
    }
  }

  // ---------------------------------------------------------------------------
  // Root-to-leaf paths (`paths_to_leaves`, for `independent=False`)

  /** Each path with `n` put in front. */
  function Prepend(n: Id, ps: seq<seq<Id>>): (r: seq<seq<Id>>)
    ensures |r| == |ps| && forall p :: p in r ==> |p| > 0 && p[0] == n
  {
    if ps == [] then [] else [[n] + ps[0]] + Prepend(n, ps[1..])
  }

  function RootPaths(a: map<Id, seq<Id>>, ghost d: map<Id, nat>, ghost bound: nat, n: Id): (ps: seq<seq<Id>>)
    requires Ranked(a, d, bound) && n in a
    ensures forall p :: p in ps ==> |p| > 0 && p[0] == n
    decreases bound - d[n], 1
  {
    if a[n] == [] then [[n]] else Prepend(n, RootPathsFrom(a, d, bound, n, 0))
  }

  /** The paths down from `n`'s children, from the `i`-th on. */
  function RootPathsFrom(a: map<Id, seq<Id>>, ghost d: map<Id, nat>, ghost bound: nat, n: Id, i: nat): (ps: seq<seq<Id>>)
    requires Ranked(a, d, bound) && n in a && i <= |a[n]|
    ensures forall p :: p in ps ==> |p| > 0 && p[0] in a[n]
    decreases bound - d[n], 0, |a[n]| - i
  {
    if i == |a[n]| then [] else RootPaths(a, d, bound, a[n][i]) + RootPathsFrom(a, d, bound, n, i + 1)
  }

  /** Every root-to-leaf path is a downward path. */
  lemma {:induction false} RootPathsDownward(a: map<Id, seq<Id>>, d: map<Id, nat>, bound: nat, n: Id)
    requires Ranked(a, d, bound) && n in a
    ensures forall p :: p in RootPaths(a, d, bound, n) ==> Downward(a, p)
    decreases bound - d[n], 1
  {
    if a[n] != [] {
      RootPathsFromDownward(a, d, bound, n, 0);
      PrependDownward(a, n, RootPathsFrom(a, d, bound, n, 0));
    } else {
      assert Downward(a, [n]);
    }
  }

  lemma {:induction false} RootPathsFromDownward(a: map<Id, seq<Id>>, d: map<Id, nat>, bound: nat, n: Id, i: nat)
    requires Ranked(a, d, bound) && n in a && i <= |a[n]|
    ensures forall p :: p in RootPathsFrom(a, d, bound, n, i) ==> Downward(a, p)
    decreases bound - d[n], 0, |a[n]| - i
  {
    if i < |a[n]| {
      RootPathsDownward(a, d, bound, a[n][i]);
      RootPathsFromDownward(a, d, bound, n, i + 1);
    }
  }

  /** There is one root-to-leaf path per leaf of the subtree, and the paths
      end at the leaves in preorder. */
  lemma {:induction false} RootPathsEnds(a: map<Id, seq<Id>>, d: map<Id, nat>, bound: nat, n: Id)
    requires Ranked(a, d, bound) && n in a
    ensures Ends(RootPaths(a, d, bound, n)) == LeavesOf(a, Preorder(a, d, bound, n))
    decreases bound - d[n], 1
  {
    RootPathsFromEnds(a, d, bound, n, 0);
    if a[n] != [] {
      EndsStep(a, n, RootPathsFrom(a, d, bound, n, 0), PreorderFrom(a, d, bound, n, 0));
    } else {
      LeavesOfCons(a, n, []);
    }
  }

  lemma {:induction false} RootPathsFromEnds(a: map<Id, seq<Id>>, d: map<Id, nat>, bound: nat, n: Id, i: nat)
    requires Ranked(a, d, bound) && n in a && i <= |a[n]|
    ensures Ends(RootPathsFrom(a, d, bound, n, i)) == LeavesOf(a, PreorderFrom(a, d, bound, n, i))
    decreases bound - d[n], 0, |a[n]| - i
  {
    if i < |a[n]| {
      var c := a[n][i];
      RootPathsEnds(a, d, bound, c);
      RootPathsFromEnds(a, d, bound, n, i + 1);
      EndsAppend(RootPaths(a, d, bound, c), RootPathsFrom(a, d, bound, n, i + 1));
      LeavesOfAppend(a, Preorder(a, d, bound, c), PreorderFrom(a, d, bound, n, i + 1));
    }
  }

  lemma EndsStep(a: map<Id, seq<Id>>, n: Id, ps: seq<seq<Id>>, q: seq<Id>)
    requires n in a && !IsLeaf(a, n)
    requires forall x :: x in ps ==> |x| > 0
    requires Ends(ps) == LeavesOf(a, q)
    ensures Ends(Prepend(n, ps)) == LeavesOf(a, [n] + q)
  {
    EndsPrepend(n, ps);
    LeavesOfCons(a, n, q);
  }

  lemma {:induction false} PrependDownward(a: map<Id, seq<Id>>, n: Id, ps: seq<seq<Id>>)
    requires n in a
    requires forall p :: p in ps ==> Downward(a, p) && |p| > 0 && p[0] in a[n]
    ensures forall r :: r in Prepend(n, ps) ==> Downward(a, r)
  {
    if ps != [] {
      PrependDownward(a, n, ps[1..]);
      var r := [n] + ps[0];
      assert ps[0] in ps;
      forall j | 0 <= j < |r| - 1
        ensures r[j + 1] in a[r[j]]
      {
        if j > 0 {
          assert r[j] == ps[0][j - 1] && r[j + 1] == ps[0][j];
        }
      }
    }
  }

  lemma LeavesOfCons(a: map<Id, seq<Id>>, n: Id, q: seq<Id>)
    ensures LeavesOf(a, [n] + q) == (if IsLeaf(a, n) then [n] else []) + LeavesOf(a, q)
  {
    assert ([n] + q)[1..] == q;
  }

  lemma {:induction false} EndsPrepend(n: Id, ps: seq<seq<Id>>)
    requires forall x :: x in ps ==> |x| > 0
    ensures Ends(Prepend(n, ps)) == Ends(ps)
  {
    if ps != [] {
      EndsPrepend(n, ps[1..]);
      assert ([[n] + ps[0]] + Prepend(n, ps[1..]))[1..] == Prepend(n, ps[1..]);
    }
  }

  lemma {:induction false} EndsAppend(s: seq<seq<Id>>, t: seq<seq<Id>>)
    requires forall x :: x in s ==> |x| > 0
    requires forall x :: x in t ==> |x| > 0
    ensures Ends(s + t) == Ends(s) + Ends(t)
  {
    if s != [] {
      EndsAppend(s[1..], t);
      assert (s + t)[1..] == s[1..] + t;
    } else {
      assert s + t == t;
    }
  }

  lemma {:induction false} LeavesOfAppend(a: map<Id, seq<Id>>, s: seq<Id>, t: seq<Id>)
    ensures LeavesOf(a, s + t) == LeavesOf(a, s) + LeavesOf(a, t)
  {
    if s != [] {
      assert (s + t)[1..] == s[1..] + t;
      LeavesOfAppend(a, s[1..], t);
    } else {
      assert s + t == t;
    }
  }

  // ---------------------------------------------------------------------------
  // What the two decompositions guarantee

  lemma {:induction false} LeavesOfMember(a: map<Id, seq<Id>>, ns: seq<Id>, x: Id)
    ensures x in LeavesOf(a, ns) <==> x in ns && IsLeaf(a, x)
  {
    if ns != [] {
      LeavesOfMember(a, ns[1..], x);
      assert x in ns <==> x == ns[0] || x in ns[1..];
    }
  }

  lemma {:induction false} LeavesOfNoDup(a: map<Id, seq<Id>>, ns: seq<Id>)
    requires NoDup(ns)
    ensures NoDup(LeavesOf(a, ns))
  {
    if ns != [] {
      assert NoDup(ns[1..]);
      LeavesOfNoDup(a, ns[1..]);
      LeavesOfMember(a, ns[1..], ns[0]);
      NoDupConcat(if IsLeaf(a, ns[0]) then [ns[0]] else [], LeavesOf(a, ns[1..]));
    }
  }

  lemma {:induction false} ReorderLeaves(order: map<Id, seq<Id>>, a: map<Id, seq<Id>>, ns: seq<Id>)
    requires order.Keys == a.Keys && forall n :: n in a ==> |order[n]| == |a[n]|
    ensures LeavesOf(order, ns) == LeavesOf(a, ns)
  {
    if ns != [] {
      ReorderLeaves(order, a, ns[1..]);
    }
  }

  lemma ReorderDownward(order: map<Id, seq<Id>>, a: map<Id, seq<Id>>, p: seq<Id>)
    requires order.Keys == a.Keys && forall n :: n in a ==> forall c :: c in order[n] <==> c in a[n]
    requires Downward(order, p)
    ensures Downward(a, p)
  {
  }

  /** `decompose(independent=True)` on a colony with a root: every cell in
      exactly one lineage, each lineage a line of descent (each cell a
      daughter of the one before), and one lineage per leaf, ending at it. */
  lemma IndependentLineages(a: map<Id, seq<Id>>, par: map<Id, Option<Id>>, r: Id, d: map<Id, nat>, bound: nat,
                            order: map<Id, seq<Id>>)
    requires Tree(a, par, Some(r), d, bound) && Reorders(order, a)
    ensures (ReorderShaped(order, a, par, d, bound);
             var ns := Preorder(order, d, bound, r);
             var ls := Cut(order, ns, []);
             && Flatten(ls) == ns
             && NoDup(Flatten(ls))
             && (forall x :: x in Flatten(ls) <==> x in a)
             && (forall l :: l in ls ==> |l| > 0 && Downward(a, l) && IsLeaf(a, l[|l| - 1]))
             && Ends(ls) == LeavesOf(a, ns)
             && (forall x :: x in Ends(ls) <==> x in a && IsLeaf(a, x))
             && NoDup(Ends(ls)))
  {
    ReorderShaped(order, a, par, d, bound);
    var ns := Preorder(order, d, bound, r);
    var ls := Cut(order, ns, []);
    PreorderLinked(order, d, bound, r);
    ReorderLeaves(order, a, ns);
    CutCovers(a, par, r, d, bound, order, ns, ls);
    CutLines(a, order, ns, ls);
    AllLeavesOnce(a, ns, Ends(ls));
  }

  lemma CutCovers(a: map<Id, seq<Id>>, par: map<Id, Option<Id>>, r: Id, d: map<Id, nat>, bound: nat,
                  order: map<Id, seq<Id>>, ns: seq<Id>, ls: seq<seq<Id>>)
    requires Tree(a, par, Some(r), d, bound) && Shaped(order, par, d, bound) && order.Keys == a.Keys
    requires ns == Preorder(order, d, bound, r) && ls == Cut(order, ns, []) && IsLeaf(order, ns[|ns| - 1])
    ensures Flatten(ls) == ns && NoDup(ns) && forall x :: x in ns <==> x in a
  {
    CutFlatten(order, ns, []);
    assert [] + ns == ns;
    PreorderNoDup(order, par, d, bound, r);
    PreorderLinked(order, d, bound, r);
    forall x | x in a
      ensures x in ns
    {
      PreorderCovers(order, par, d, bound, r, x);
    }
  }

  lemma CutLines(a: map<Id, seq<Id>>, order: map<Id, seq<Id>>, ns: seq<Id>, ls: seq<seq<Id>>)
    requires order.Keys == a.Keys && forall n :: n in a ==> |order[n]| == |a[n]| && forall c :: c in order[n] <==> c in a[n]
    requires Linked(order, ns) && ls == Cut(order, ns, [])
    ensures Ends(ls) == LeavesOf(a, ns)
    ensures forall l :: l in ls ==> |l| > 0 && Downward(a, l) && IsLeaf(a, l[|l| - 1])
  {
    CutDownward(order, ns, []);
    CutEnds(order, ns, []);
    ReorderLeaves(order, a, ns);
    forall l | l in ls
      ensures |l| > 0 && Downward(a, l) && IsLeaf(a, l[|l| - 1])
    {
      ReorderDownward(order, a, l);
      var i :| 0 <= i < |ls| && ls[i] == l;
      EndsAt(ls, i);
      LeavesOfMember(a, ns, l[|l| - 1]);
    }
  }

  /** The leaves read off a sequence that lists every node once are every
      leaf once. */
  lemma AllLeavesOnce(a: map<Id, seq<Id>>, ns: seq<Id>, es: seq<Id>)
    requires NoDup(ns) && (forall x :: x in ns <==> x in a) && es == LeavesOf(a, ns)
    ensures forall x :: x in es <==> x in a && IsLeaf(a, x)
    ensures NoDup(es)
  {
    forall x
      ensures x in es <==> x in a && IsLeaf(a, x)
    {
      LeavesOfMember(a, ns, x);
    }
    LeavesOfNoDup(a, ns);
  }

  /** `decompose(independent=False)` on a colony with a root: one path from
      the root down to each leaf, in preorder of the leaves. */
  lemma PathsToLeaves(a: map<Id, seq<Id>>, par: map<Id, Option<Id>>, r: Id, d: map<Id, nat>, bound: nat)
    requires Tree(a, par, Some(r), d, bound)
    ensures var ps := RootPaths(a, d, bound, r);
            && (forall p :: p in ps ==> |p| > 0 && p[0] == r && Downward(a, p))
            && Ends(ps) == LeavesOf(a, Preorder(a, d, bound, r))
            && (forall x :: x in Ends(ps) <==> x in a && IsLeaf(a, x))
            && NoDup(Ends(ps))
  {
    var ns := Preorder(a, d, bound, r);
    RootPathsDownward(a, d, bound, r);
    RootPathsEnds(a, d, bound, r);
    PreorderNoDup(a, par, d, bound, r);
    PreorderLinked(a, d, bound, r);
    forall x | x in a
      ensures x in ns
    {
      PreorderCovers(a, par, d, bound, r, x);
    }
    AllLeavesOnce(a, ns, LeavesOf(a, ns));
  }

  // ---------------------------------------------------------------------------
  // Selecting lineages (`iter_lineages`)

  /** The lineages the filter accepts, in order. */
  function Accepted(ids: seq<seq<Id>>, accept: seq<Id> -> bool): (r: seq<seq<Id>>)
    ensures |r| <= |ids|
    ensures forall x :: x in r <==> x in ids && accept(x)
  {
    if ids == [] then []
    else (if accept(ids[0]) then [ids[0]] else []) + Accepted(ids[1..], accept)
  }

  /** At most `size` of them, when a size is given (`count > size - 1`
      stops the loop). */
  function UpTo(xs: seq<seq<Id>>, size: Option<int>): seq<seq<Id>> {
    if size.None? then xs
    else if size.value <= 0 then []
    else if size.value < |xs| then xs[..size.value]
    else xs
  }

  lemma {:induction false} AcceptedAppend(s: seq<seq<Id>>, t: seq<seq<Id>>, accept: seq<Id> -> bool)
    ensures Accepted(s + t, accept) == Accepted(s, accept) + Accepted(t, accept)
  {
    if s != [] {
      assert (s + t)[1..] == s[1..] + t;
      AcceptedAppend(s[1..], t, accept);
    } else {
      assert s + t == t;
    }
  }

  /** The selection is a prefix of the accepted lineages, no longer than the
      size, and all of them when fewer were accepted. */
  lemma SelectionFacts(ids: seq<seq<Id>>, accept: seq<Id> -> bool, size: Option<int>)
    ensures var acc := Accepted(ids, accept);
            var r := UpTo(acc, size);
            r <= acc
            && (size.Some? ==> |r| <= if size.value < 0 then 0 else size.value)
            && (size.Some? && 0 <= size.value <= |acc| ==> |r| == size.value)
            && (size.None? || size.value >= |acc| ==> r == acc)
            && forall x :: x in r ==> accept(x)
  {
  }

  /** As written, `iter_lineages` passes its seed where `decompose` expects
      the `independent` flag: the flag is the seed's truth value. */
  function IndependentAsWritten(seed: Option<int>): bool {
    seed.Some? && seed.value != 0
  }

  /** A mother `r` with two daughters `a` and `b`, and their depths. */
  const Family: map<Id, seq<Id>> := map["r" := ["a", "b"], "a" := [], "b" := []]
  const FamilyDepth: map<Id, nat> := map["r" := 0, "a" := 1, "b" := 1]

  /** With the default seed, `iter_lineages` as written decomposes the
      family into two lineages that both hold the mother; the independent
      decomposition it documents puts her in one only. */
  lemma SeedAsFlagRepeatsMother()
    ensures !IndependentAsWritten(None)
    ensures Ranked(Family, FamilyDepth, 2)
    ensures RootPaths(Family, FamilyDepth, 2, "r") == [["r", "a"], ["r", "b"]]
    ensures Cut(Family, Preorder(Family, FamilyDepth, 2, "r"), []) == [["r", "a"], ["b"]]
  {
    FamilyRanked();
    FamilyRootPaths();
    FamilyPreorder();
    FamilyCut();
  }

  lemma FamilyRanked()
    ensures Ranked(Family, FamilyDepth, 2)
  {
    assert Family["r"][0] == "a" && Family["r"][1] == "b";
  }

  lemma FamilyRootPaths()
    requires Ranked(Family, FamilyDepth, 2)
    ensures RootPaths(Family, FamilyDepth, 2, "r") == [["r", "a"], ["r", "b"]]
  {
    FamilyDaughterPaths();
    assert Family["r"] != [];
    var ps: seq<seq<Id>> := [["a"], ["b"]];
    assert ps[1..] == [["b"]] && [["b"]][1..] == [];
    assert ["r"] + ["a"] == ["r", "a"] && ["r"] + ["b"] == ["r", "b"];
    assert Prepend("r", []) == [];
    assert Prepend("r", [["b"]]) == [["r", "b"]];
    assert Prepend("r", ps) == [["r", "a"], ["r", "b"]];
  }

  lemma FamilyDaughterPaths()
    requires Ranked(Family, FamilyDepth, 2)
    ensures RootPathsFrom(Family, FamilyDepth, 2, "r", 0) == [["a"], ["b"]]
  {
    var a, d := Family, FamilyDepth;
    assert a["r"][0] == "a" && a["r"][1] == "b";
    assert RootPaths(a, d, 2, "a") == [["a"]] && RootPaths(a, d, 2, "b") == [["b"]];
    assert RootPathsFrom(a, d, 2, "r", 2) == [];
    assert RootPathsFrom(a, d, 2, "r", 1) == [["b"]];
  }

  lemma FamilyPreorder()
    requires Ranked(Family, FamilyDepth, 2)
    ensures Preorder(Family, FamilyDepth, 2, "r") == ["r", "a", "b"]
  {
    var a, d := Family, FamilyDepth;
    assert a["r"][0] == "a" && a["r"][1] == "b";
    assert Preorder(a, d, 2, "a") == ["a"] && Preorder(a, d, 2, "b") == ["b"];
    assert PreorderFrom(a, d, 2, "r", 2) == [];
    assert PreorderFrom(a, d, 2, "r", 1) == ["b"];
    assert PreorderFrom(a, d, 2, "r", 0) == ["a", "b"];
  }

  lemma FamilyCut()
    ensures Cut(Family, ["r", "a", "b"], []) == [["r", "a"], ["b"]]
  {
    var a := Family;
    var ns: seq<Id> := ["r", "a", "b"];
    assert ns[1..] == ["a", "b"] && ns[1..][1..] == ["b"] && ns[1..][1..][1..] == [];
    assert !IsLeaf(a, "r") && IsLeaf(a, "a") && IsLeaf(a, "b");
    assert [] + ["b"] == ["b"] && [] + ["r"] == ["r"] && ["r"] + ["a"] == ["r", "a"];
    assert Cut(a, ["b"], []) == [[] + ["b"]] + Cut(a, [], []);
    assert Cut(a, ["a", "b"], ["r"]) == [["r"] + ["a"]] + Cut(a, ["b"], []);
    assert Cut(a, ns, []) == Cut(a, ["a", "b"], [] + ["r"]);
  }

  datatype TreeError = DuplicatedNodeId | MultipleRoot | NodeIdAbsent

  /** The checks of treelib's `add_node`, in its order. */
  function AddNodeError(nodes: map<Id, seq<Id>>, root: Option<Id>, id: Id, parent: Option<Id>): (e: Option<TreeError>)
    ensures e.None? <==> id !in nodes && (parent.None? ==> root.None?) && (parent.Some? ==> parent.value in nodes)
  {
    if id in nodes then Some(DuplicatedNodeId)
    else if parent.None? then (if root.Some? then Some(MultipleRoot) else None)
    else if parent.value !in nodes then Some(NodeIdAbsent)
    else None
  }

  /** A cell as `add_cell_recursive` sees it: its back-pointer and its
      daughters. */
  datatype Links = Links(bpointer: Option<Id>, childs: seq<Id>)

  /** Every daughter is itself a known cell. */
  ghost predicate Closed(cells: map<Id, Links>) {
    forall x, i :: x in cells && 0 <= i < |cells[x].childs| ==> cells[x].childs[i] in cells
  }

  /** Nodes already present keep their back-pointer and their children. */
  ghost predicate Grows(k0: map<Id, seq<Id>>, p0: map<Id, Option<Id>>, k1: map<Id, seq<Id>>, p1: map<Id, Option<Id>>) {
    forall n :: n in k0 && n in p0 ==> n in k1 && n in p1 && p1[n] == p0[n] && k0[n] <= k1[n]
  }

  lemma GrowsKeys(k0: map<Id, seq<Id>>, p0: map<Id, Option<Id>>, k1: map<Id, seq<Id>>, p1: map<Id, Option<Id>>)
    requires k0.Keys == p0.Keys && Grows(k0, p0, k1, p1)
    ensures k0.Keys <= k1.Keys
  {
  }

  lemma GrowsTrans(k0: map<Id, seq<Id>>, p0: map<Id, Option<Id>>, k1: map<Id, seq<Id>>, p1: map<Id, Option<Id>>,
                   k2: map<Id, seq<Id>>, p2: map<Id, Option<Id>>)
    requires k0.Keys == p0.Keys && k1.Keys == p1.Keys
    requires Grows(k0, p0, k1, p1) && Grows(k1, p1, k2, p2)
    ensures Grows(k0, p0, k2, p2)
  {
  }

  /** Every node added has the back-pointer of its cell, and, `c` excepted,
      is a daughter its mother still claims, the mother being added too: the
      nodes added lie in the subtree of `c`. */
  ghost predicate AddedFrom(cells: map<Id, Links>, c: Id, k0: map<Id, seq<Id>>, k1: map<Id, seq<Id>>, p1: map<Id, Option<Id>>) {
    forall x :: x in k1 && x !in k0 ==>
      x in cells && x in p1 && p1[x] == cells[x].bpointer
      && (x == c || (cells[x].bpointer.Some? && cells[x].bpointer.value in cells
                     && x in cells[cells[x].bpointer.value].childs
                     && cells[x].bpointer.value in k1 && cells[x].bpointer.value !in k0))
  }

  /** Of the nodes of `k0`, only the mother `bp` of `c` gains a child, `c`
      itself at the end, and only when `c` is new. */
  ghost predicate OnlyMotherGains(k0: map<Id, seq<Id>>, k1: map<Id, seq<Id>>, c: Id, bp: Option<Id>) {
    forall n :: n in k0 ==>
      n in k1 && k1[n] == if c in k1 && c !in k0 && bp == Some(n) then k0[n] + [c] else k0[n]
  }

  lemma NewNodeGains(k0: map<Id, seq<Id>>, k1: map<Id, seq<Id>>, c: Id, bp: Option<Id>)
    requires c !in k0
    requires bp.None? ==> k0 == map[] && k1 == map[c := []]
    requires bp.Some? ==> bp.value in k0 && k1 == k0[bp.value := k0[bp.value] + [c]][c := []]
    ensures OnlyMotherGains(k0, k1, c, bp) && c in k1 && k1[c] == []
  {
  }

  lemma OnlyMotherTrans(k0: map<Id, seq<Id>>, k1: map<Id, seq<Id>>, k2: map<Id, seq<Id>>, c: Id, bp: Option<Id>, ch: Id)
    requires k1.Keys <= k2.Keys && c in k1 && c !in k0
    requires OnlyMotherGains(k0, k1, c, bp) && OnlyMotherGains(k1, k2, ch, Some(c))
    ensures OnlyMotherGains(k0, k2, c, bp)
    ensures k2[c] == if ch in k2 && ch !in k1 then k1[c] + [ch] else k1[c]
  {
  }

  /** The daughters among `chs` that `add_cell_recursive` links under `c`:
      those whose back-pointer names `c`, in order. */
  function LinkedDaughters(cells: map<Id, Links>, chs: seq<Id>, c: Id): (r: seq<Id>)
    ensures forall x :: x in r <==> x in chs && x in cells && cells[x].bpointer == Some(c)
    decreases |chs|
  {
    if chs == [] then []
    else
      var last := chs[|chs| - 1];
      LinkedDaughters(cells, chs[..|chs| - 1], c)
      + (if last in cells && cells[last].bpointer == Some(c) then [last] else [])
  }

  lemma LinkedStep(cells: map<Id, Links>, chs: seq<Id>, i: nat, c: Id)
    requires i < |chs|
    ensures LinkedDaughters(cells, chs[..i + 1], c)
            == LinkedDaughters(cells, chs[..i], c)
               + (if chs[i] in cells && cells[chs[i]].bpointer == Some(c) then [chs[i]] else [])
  {
    assert chs[..i + 1][..i] == chs[..i];
  }

  /** The daughters linked from a prefix of the list come first. */
  lemma {:induction false} LinkedPrefix(cells: map<Id, Links>, chs: seq<Id>, i: nat, c: Id)
    requires i <= |chs|
    ensures LinkedDaughters(cells, chs[..i], c) <= LinkedDaughters(cells, chs, c)
    decreases |chs| - i
  {
    if i < |chs| {
      LinkedStep(cells, chs, i, c);
      LinkedPrefix(cells, chs, i + 1, c);
    } else {
      assert chs[..i] == chs;
    }
  }

  lemma AddedFromTrans(cells: map<Id, Links>, c: Id, ch: Id, k0: map<Id, seq<Id>>, k1: map<Id, seq<Id>>, p1: map<Id, Option<Id>>,
                       k2: map<Id, seq<Id>>, p2: map<Id, Option<Id>>)
    requires c in cells && ch in cells[c].childs && ch in cells && cells[ch].bpointer == Some(c)
    requires k1.Keys == p1.Keys && k0.Keys <= k1.Keys && c in k1 && c !in k0
    requires AddedFrom(cells, c, k0, k1, p1) && Grows(k1, p1, k2, p2) && AddedFrom(cells, ch, k1, k2, p2)
    ensures AddedFrom(cells, c, k0, k2, p2)
  {
    GrowsKeys(k1, p1, k2, p2);
  }

  /** Every node added, but possibly `skip`, has in the table each daughter
      whose back-pointer names it. */
  ghost predicate LinksKept(cells: map<Id, Links>, k0: map<Id, seq<Id>>, k1: map<Id, seq<Id>>, skip: Option<Id>) {
    forall x, ch ::
      (x in k1 && x !in k0 && x in cells && Some(x) != skip
       && ch in cells[x].childs && ch in cells && cells[ch].bpointer == Some(x)) ==> ch in k1
  }

  lemma LinksKeptTrans(cells: map<Id, Links>, skip: Option<Id>, k0: map<Id, seq<Id>>, k1: map<Id, seq<Id>>, k2: map<Id, seq<Id>>)
    requires k1.Keys <= k2.Keys
    requires LinksKept(cells, k0, k1, skip) && LinksKept(cells, k1, k2, None)
    ensures LinksKept(cells, k0, k2, skip)
  {
  }

  lemma TakeOneMore<T>(s: seq<T>, i: nat)
    requires i < |s|
    ensures s[..i + 1] == s[..i] + [s[i]]
  {
  }

  lemma TakeAll<T>(s: seq<T>)
    ensures s[..|s|] == s
  {
  }

  lemma SubsetMeasure(u: set<Id>, s0: set<Id>, s1: set<Id>)
    requires s0 <= s1
    ensures |u - s1| <= |u - s0|
  {
    assert u - s0 == (u - s1) + (s1 - s0) * u;
    assert (u - s1) * ((s1 - s0) * u) == {};
  }

  /** Every daughter in `xs` whose back-pointer names `c` is among `keys`. */
  ghost predicate Claimed(cells: map<Id, Links>, c: Id, xs: seq<Id>, keys: set<Id>) {
    forall x :: x in xs && x in cells && cells[x].bpointer == Some(c) ==> x in keys
  }

  lemma ClaimedStep(cells: map<Id, Links>, c: Id, xs: seq<Id>, x: Id, k1: set<Id>, k2: set<Id>)
    requires Claimed(cells, c, xs, k1) && k1 <= k2
    requires x in cells && cells[x].bpointer == Some(c) ==> x in k2
    ensures Claimed(cells, c, xs + [x], k2)
  {
  }

  lemma LinksKeptClose(cells: map<Id, Links>, c: Id, k0: map<Id, seq<Id>>, k1: map<Id, seq<Id>>)
    requires c in cells && LinksKept(cells, k0, k1, Some(c))
    requires Claimed(cells, c, cells[c].childs, k1.Keys)
    ensures LinksKept(cells, k0, k1, None)
  {
  }

  /** `ch` occurs twice in `s`. */
  ghost predicate Twice(s: seq<Id>, ch: Id) {
    exists i, j :: 0 <= i < j < |s| && s[i] == ch && s[j] == ch
  }

  /** What stops a walk started over the table `k0` with `DuplicatedNodeId`:
      a node `y` the walk added claims a daughter `ch` naming `y` that was in
      the table before the walk, or that `y` lists twice. */
  ghost predicate Collision(cells: map<Id, Links>, k0: map<Id, seq<Id>>, k1: map<Id, seq<Id>>, y: Id, ch: Id) {
    && y in k1 && y !in k0 && y in cells
    && ch in cells[y].childs && ch in cells && cells[ch].bpointer == Some(y)
    && (ch in k0 || Twice(cells[y].childs, ch))
  }

  /** The walk from `k0` to `k1` met some collision. */
  ghost predicate Collided(cells: map<Id, Links>, k0: map<Id, seq<Id>>, k1: map<Id, seq<Id>>) {
    exists y, ch :: Collision(cells, k0, k1, y, ch)
  }

  /** No cell but possibly `c` is in the table yet. */
  ghost predicate FreshCells(cells: map<Id, Links>, k0: map<Id, seq<Id>>, c: Id) {
    forall x :: x in cells && x != c ==> x !in k0
  }

  /** No cell lists a daughter twice. */
  ghost predicate DistinctChilds(cells: map<Id, Links>) {
    forall x :: x in cells ==> NoDup(cells[x].childs)
  }

  /** A collision met by the walk of a daughter is one of the walk of `c`: a
      node added by the walk of `c` cannot be claimed by a node added later. */
  lemma CollisionTransfer(cells: map<Id, Links>, c: Id, k0: map<Id, seq<Id>>, k1: map<Id, seq<Id>>, p1: map<Id, Option<Id>>,
                          k2: map<Id, seq<Id>>, y: Id, ch: Id)
    requires k0.Keys <= k1.Keys && c !in k0 && AddedFrom(cells, c, k0, k1, p1)
    requires c in cells && (cells[c].bpointer.Some? ==> cells[c].bpointer.value in k0)
    requires Collision(cells, k1, k2, y, ch)
    ensures Collision(cells, k0, k2, y, ch)
  {
  }

  /** A daughter of `c` already in the table when the loop reaches it was
      either there before the walk of `c` or met earlier in the list. */
  lemma DuplicateDaughter(cells: map<Id, Links>, c: Id, k0: map<Id, seq<Id>>, k1: map<Id, seq<Id>>, p1: map<Id, Option<Id>>,
                          root: Option<Id>, d1: map<Id, nat>, b1: nat, chs: seq<Id>, i: nat)
    requires Tree(k1, p1, root, d1, b1) && c in k1 && c !in k0 && AddedFrom(cells, c, k0, k1, p1)
    requires c in cells && (cells[c].bpointer.Some? ==> cells[c].bpointer.value in k0)
    requires chs == cells[c].childs && i < |chs| && k1[c] == LinkedDaughters(cells, chs[..i], c)
    requires chs[i] in cells && cells[chs[i]].bpointer == Some(c) && chs[i] in k1
    ensures Collision(cells, k0, k1, c, chs[i])
  {
    var ch := chs[i];
    if ch !in k0 {
      assert p1[ch] == Some(c);
      assert ch in chs[..i];
      var j :| 0 <= j < i && chs[j] == ch;
      assert Twice(chs, ch);
    }
  }

  /** The error met by the walk of the daughter `chs[i]` of `c`, started over
      the table `k1`, is a collision of the walk of `c`. */
  lemma DaughterCollision(cells: map<Id, Links>, c: Id, k0: map<Id, seq<Id>>, k1: map<Id, seq<Id>>, p1: map<Id, Option<Id>>,
                          root: Option<Id>, d1: map<Id, nat>, b1: nat, chs: seq<Id>, i: nat, k2: map<Id, seq<Id>>)
    requires Tree(k1, p1, root, d1, b1) && c in k1 && c !in k0 && k0.Keys <= k1.Keys && AddedFrom(cells, c, k0, k1, p1)
    requires c in cells && (cells[c].bpointer.Some? ==> cells[c].bpointer.value in k0)
    requires chs == cells[c].childs && i < |chs| && k1[c] == LinkedDaughters(cells, chs[..i], c)
    requires chs[i] in cells && cells[chs[i]].bpointer == Some(c)
    requires chs[i] in k1 ==> k2 == k1
    requires chs[i] !in k1 ==> Collided(cells, k1, k2)
    ensures Collided(cells, k0, k2)
  {
    if chs[i] in k1 {
      DuplicateDaughter(cells, c, k0, k1, p1, root, d1, b1, chs, i);
    } else {
      var y, ch :| Collision(cells, k1, k2, y, ch);
      CollisionTransfer(cells, c, k0, k1, p1, k2, y, ch);
    }
  }

  /** A turn of that loop that fails leaves `c` with a prefix of its linked
      daughters, after a collision. */
  lemma LinkedDaughterFailed(cells: map<Id, Links>, c: Id, k0: map<Id, seq<Id>>, chs: seq<Id>, i: nat,
                             k1: map<Id, seq<Id>>, p1: map<Id, Option<Id>>, root: Option<Id>, d1: map<Id, nat>, b1: nat,
                             k2: map<Id, seq<Id>>)
    requires Tree(k1, p1, root, d1, b1) && c in cells && c in k1 && c !in k0 && k0.Keys <= k1.Keys
    requires AddedFrom(cells, c, k0, k1, p1) && (cells[c].bpointer.Some? ==> cells[c].bpointer.value in k0)
    requires chs == cells[c].childs && i < |chs| && chs[i] in cells && cells[chs[i]].bpointer == Some(c)
    requires k1[c] == LinkedDaughters(cells, chs[..i], c) && c in k2
    requires k2[c] == if chs[i] in k2 && chs[i] !in k1 then k1[c] + [chs[i]] else k1[c]
    requires chs[i] in k1 ==> k2 == k1
    requires chs[i] !in k1 ==> Collided(cells, k1, k2)
    ensures Collided(cells, k0, k2) && k2[c] <= LinkedDaughters(cells, chs, c)
  {
    TakeOneMore(chs, i);
    LinkedStep(cells, chs, i, c);
    DaughterCollision(cells, c, k0, k1, p1, root, d1, b1, chs, i, k2);
    LinkedPrefix(cells, chs, i, c);
    LinkedPrefix(cells, chs, i + 1, c);
  }

  /** What one turn of the loop of `add_cell_recursive` keeps, once the walk
      of the daughter `chs[i]` of `c` took the table from `k1` to `k2`. */
  lemma LinkedDaughterStep(cells: map<Id, Links>, c: Id, k0: map<Id, seq<Id>>, p0: map<Id, Option<Id>>, chs: seq<Id>, i: nat,
                           k1: map<Id, seq<Id>>, p1: map<Id, Option<Id>>, root: Option<Id>, d1: map<Id, nat>, b1: nat,
                           k2: map<Id, seq<Id>>, p2: map<Id, Option<Id>>, err: Option<TreeError>)
    requires Tree(k1, p1, root, d1, b1) && c in cells && c in k1 && c !in k0
    requires chs == cells[c].childs && i < |chs| && chs[i] in cells && cells[chs[i]].bpointer == Some(c)
    requires k0.Keys == p0.Keys && k0.Keys + {c} <= k1.Keys && k2.Keys == p2.Keys
    requires Grows(k0, p0, k1, p1) && AddedFrom(cells, c, k0, k1, p1) && LinksKept(cells, k0, k1, Some(c))
    requires Claimed(cells, c, chs[..i], k1.Keys)
    requires OnlyMotherGains(k0, k1, c, cells[c].bpointer) && k1[c] == LinkedDaughters(cells, chs[..i], c)
    requires cells[c].bpointer.Some? ==> cells[c].bpointer.value in k0
    // what the walk of `chs[i]` ensures
    requires Grows(k1, p1, k2, p2) && AddedFrom(cells, chs[i], k1, k2, p2)
    requires OnlyMotherGains(k1, k2, chs[i], Some(c))
    requires err.None? ==> LinksKept(cells, k1, k2, None) && chs[i] in k2 && chs[i] !in k1
    requires chs[i] in k1 ==> err == Some(DuplicatedNodeId) && k2 == k1
    requires chs[i] !in k1 && err.Some? ==> err == Some(DuplicatedNodeId) && Collided(cells, k1, k2)
    ensures c in k2 && k0.Keys + {c} <= k2.Keys && |cells.Keys - k2.Keys| <= |cells.Keys - k1.Keys|
    ensures Grows(k0, p0, k2, p2) && AddedFrom(cells, c, k0, k2, p2)
    ensures OnlyMotherGains(k0, k2, c, cells[c].bpointer)
    ensures err.Some? ==> k2[c] <= LinkedDaughters(cells, chs, c)
    ensures err.Some? ==> err == Some(DuplicatedNodeId) && Collided(cells, k0, k2)
    ensures err.None? ==>
              Claimed(cells, c, chs[..i + 1], k2.Keys) && LinksKept(cells, k0, k2, Some(c))
              && k2[c] == LinkedDaughters(cells, chs[..i + 1], c)
  {
    var ch := chs[i];
    TakeOneMore(chs, i);
    LinkedStep(cells, chs, i, c);
    GrowsTrans(k0, p0, k1, p1, k2, p2);
    AddedFromTrans(cells, c, ch, k0, k1, p1, k2, p2);
    GrowsKeys(k1, p1, k2, p2);
    OnlyMotherTrans(k0, k1, k2, c, cells[c].bpointer, ch);
    SubsetMeasure(cells.Keys, k1.Keys, k2.Keys);
    if err.Some? {
      LinkedDaughterFailed(cells, c, k0, chs, i, k1, p1, root, d1, b1, k2);
    } else {
      LinksKeptTrans(cells, Some(c), k0, k1, k2);
      ClaimedStep(cells, c, chs[..i], ch, k1.Keys, k2.Keys);
    }
  }

  /** A walk over fresh cells that list no daughter twice meets no collision. */
  lemma NoCollision(cells: map<Id, Links>, c: Id, k0: map<Id, seq<Id>>, k1: map<Id, seq<Id>>)
    requires c in cells && c !in k0 && (cells[c].bpointer.Some? ==> cells[c].bpointer.value in k0)
    requires FreshCells(cells, k0, c) && DistinctChilds(cells)
    ensures !Collided(cells, k0, k1)
  {
  }

  lemma ShrinkMeasure(u: set<Id>, s0: set<Id>, s1: set<Id>, c: Id)
    requires s0 + {c} <= s1 && c in u && c !in s0
    ensures |u - s1| < |u - s0|
  {
    var x, y, z := u - s1, (u - s0) - {c}, u - s0;
    assert y == x + (y - x) && x * (y - x) == {};
    assert z == y + {c} && y * {c} == {};
  }

  lemma RootTree(id: Id)
    ensures Tree(map[id := []], map[id := None], Some(id), map[id := 0], 1)
  {
  }

  /** Adding a new leaf under a node keeps the tree. */
  lemma AddLeafTree(a: map<Id, seq<Id>>, par: map<Id, Option<Id>>, root: Option<Id>, d: map<Id, nat>, bound: nat,
                    p: Id, id: Id, b: nat, a': map<Id, seq<Id>>, par': map<Id, Option<Id>>, d': map<Id, nat>)
    requires Tree(a, par, root, d, bound) && p in a && id !in a
    requires b >= bound && b > d[p] + 1
    requires a' == a[p := a[p] + [id]][id := []] && par' == par[id := Some(p)] && d' == d[id := d[p] + 1]
    ensures Tree(a', par', root, d', b)
    ensures Grows(a, par, a', par')
  {
    AddLeafShaped(a, par, d, bound, p, id, b, a', par', d');
    assert a'.Keys == par'.Keys;
    assert forall n :: n in a' && par'[n].None? ==> n in a && par[n].None?;
    forall n | n in a && n in par
      ensures n in a' && n in par' && par'[n] == par[n] && a[n] <= a'[n]
    {
      assert n != id;
      if n == p {
        assert a'[n] == a[n] + [id];
      }
    }
  }

  lemma AddLeafShaped(a: map<Id, seq<Id>>, par: map<Id, Option<Id>>, d: map<Id, nat>, bound: nat,
                      p: Id, id: Id, b: nat, a': map<Id, seq<Id>>, par': map<Id, Option<Id>>, d': map<Id, nat>)
    requires Shaped(a, par, d, bound) && p in a && id !in a
    requires b >= bound && b > d[p] + 1
    requires a' == a[p := a[p] + [id]][id := []] && par' == par[id := Some(p)] && d' == d[id := d[p] + 1]
    ensures Shaped(a', par', d', b)
  {
    forall n | n in a'
      ensures n in d' && d'[n] < b && n in par' && NoDup(a'[n])
    {
      if n == p {
        assert id !in a[p];
      }
    }
    forall n, i | n in a' && 0 <= i < |a'[n]|
      ensures a'[n][i] in a' && a'[n][i] in par' && par'[a'[n][i]] == Some(n) && a'[n][i] in d' && d'[a'[n][i]] == d'[n] + 1
    {
      AddLeafChild(a, par, d, bound, p, id, a', par', d', n, i);
    }
    forall n | n in a' && par'[n].Some?
      ensures par'[n].value in a' && n in a'[par'[n].value] && d'[n] == d'[par'[n].value] + 1
    {
      AddLeafParent(a, par, d, bound, p, id, a', par', d', n);
    }
  }

  lemma AddLeafChild(a: map<Id, seq<Id>>, par: map<Id, Option<Id>>, d: map<Id, nat>, bound: nat,
                     p: Id, id: Id, a': map<Id, seq<Id>>, par': map<Id, Option<Id>>, d': map<Id, nat>, n: Id, i: int)
    requires Shaped(a, par, d, bound) && p in a && id !in a
    requires a' == a[p := a[p] + [id]][id := []] && par' == par[id := Some(p)] && d' == d[id := d[p] + 1]
    requires n in a' && 0 <= i < |a'[n]|
    ensures a'[n][i] in a' && a'[n][i] in par' && par'[a'[n][i]] == Some(n) && a'[n][i] in d' && d'[a'[n][i]] == d'[n] + 1
  {
    if n == p && i == |a[p]| {
      assert a'[n][i] == id;
    } else {
      assert n in a && i < |a[n]| && a'[n][i] == a[n][i];
      assert a[n][i] != id;
    }
  }

  lemma AddLeafParent(a: map<Id, seq<Id>>, par: map<Id, Option<Id>>, d: map<Id, nat>, bound: nat,
                      p: Id, id: Id, a': map<Id, seq<Id>>, par': map<Id, Option<Id>>, d': map<Id, nat>, n: Id)
    requires Shaped(a, par, d, bound) && p in a && id !in a
    requires a' == a[p := a[p] + [id]][id := []] && par' == par[id := Some(p)] && d' == d[id := d[p] + 1]
    requires n in a' && par'[n].Some?
    ensures par'[n].value in a' && n in a'[par'[n].value] && d'[n] == d'[par'[n].value] + 1
  {
    if n != id {
      assert par'[n] == par[n];
      assert par[n].value != id;
      assert a[par[n].value] <= a'[par[n].value];
    } else {
      assert a'[p][|a[p]|] == id;
    }
  }

  class Colony {
    /** The node table: each node's children, in insertion order. */
    var kids: map<Id, seq<Id>>
    /** Each node's back-pointer. */
    var par: map<Id, Option<Id>>
    var root: Option<Id>
    var idseqs: Option<seq<seq<Id>>>
    ghost var depth: map<Id, nat>
    ghost var bound: nat

    ghost predicate Valid()
      reads this
    {
      Tree(kids, par, root, depth, bound)
    }

    constructor()
      ensures Valid() && kids == map[] && root == None && idseqs == None
    {
      kids := map[];
      par := map[];
      root := None;
      idseqs := None;
      depth := map[];
      bound := 0;
    }

    /** treelib's `add_node(node, parent)`. */
    method AddNode(id: Id, parent: Option<Id>) returns (err: Option<TreeError>)
      requires Valid()
      modifies this`kids, this`par, this`root, this`depth, this`bound
      ensures Valid()
      ensures err == AddNodeError(old(kids), old(root), id, parent)
      ensures err.Some? ==> kids == old(kids) && par == old(par) && root == old(root)
      ensures err.None? && parent.None? ==> kids == map[id := []] && root == Some(id)
      ensures err.None? && parent.Some? ==>
                kids == old(kids)[parent.value := old(kids)[parent.value] + [id]][id := []] && root == old(root)
      ensures err.None? ==> par == old(par)[id := parent]
      ensures Grows(old(kids), old(par), kids, par)
    {
      err := AddNodeError(kids, root, id, parent);
      if err.Some? {
        return;
      }
      if parent.None? {
        AddRoot(id);
      } else {
        AddLeaf(parent.value, id);
      }
    }

    method AddRoot(id: Id)
      requires Valid() && root.None?
      modifies this`kids, this`par, this`root, this`depth, this`bound
      ensures Valid() && kids == map[id := []] && par == old(par)[id := None] && root == Some(id)
      ensures Grows(old(kids), old(par), kids, par)
    {
      RootTree(id);
      kids, par, root, depth, bound := map[id := []], map[id := None], Some(id), map[id := 0], 1;
    }

    method AddLeaf(p: Id, id: Id)
      requires Valid() && p in kids && id !in kids
      modifies this`kids, this`par, this`depth, this`bound
      ensures Valid() && kids == old(kids)[p := old(kids)[p] + [id]][id := []] && par == old(par)[id := Some(p)]
      ensures Grows(old(kids), old(par), kids, par)
    {
      ghost var k0, p0, d0, b0 := kids, par, depth, bound;
      kids, par, depth, bound := kids[p := kids[p] + [id]][id := []], par[id := Some(p)], depth[id := depth[p] + 1], bound + depth[p] + 2;
      AddLeafTree(k0, p0, root, d0, b0, p, id, bound, kids, par, depth);
    }

    /** `add_cell_recursive`: the cell is added under its back-pointer, then
      each daughter whose back-pointer names the cell, recursively; the first
      error of treelib ends the whole walk. */
    method AddCellRecursive(cells: map<Id, Links>, c: Id) returns (err: Option<TreeError>)
      requires Valid() && c in cells && Closed(cells)
      modifies this`kids, this`par, this`root, this`depth, this`bound
      ensures Valid()
      ensures Grows(old(kids), old(par), kids, par)
      ensures AddedFrom(cells, c, old(kids), kids, par)
      ensures err.None? ==> c in kids && c !in old(kids)
      ensures err.None? ==> LinksKept(cells, old(kids), kids, None)
      ensures OnlyMotherGains(old(kids), kids, c, cells[c].bpointer)
      ensures c in kids && c !in old(kids) ==> kids[c] <= LinkedDaughters(cells, cells[c].childs, c)
      ensures err.None? ==> kids[c] == LinkedDaughters(cells, cells[c].childs, c)
      ensures var e := AddNodeError(old(kids), old(root), c, cells[c].bpointer);
                e.Some? ==> err == e && kids == old(kids) && par == old(par)
      ensures var e := AddNodeError(old(kids), old(root), c, cells[c].bpointer);
                e.None? ==> c in kids && c !in old(kids)
      ensures var e := AddNodeError(old(kids), old(root), c, cells[c].bpointer);
                e.None? && err.Some? ==>
                  err == Some(DuplicatedNodeId) && Collided(cells, old(kids), kids)
      ensures var e := AddNodeError(old(kids), old(root), c, cells[c].bpointer);
                e.None? && FreshCells(cells, old(kids), c) && DistinctChilds(cells) ==> err.None?
      decreases |cells.Keys - kids.Keys|, 0
    {
      ghost var k0, p0 := kids, par;
      err := AddNode(c, cells[c].bpointer);
      if err.Some? {
        return;
      }
      NewNodeGains(k0, kids, c, cells[c].bpointer);
      GrowsKeys(k0, p0, kids, par);
      ShrinkMeasure(cells.Keys, k0.Keys, kids.Keys, c);
      err := AddDaughters(cells, c, k0, p0);
      if FreshCells(cells, k0, c) && DistinctChilds(cells) {
        NoCollision(cells, c, k0, kids);
      }
    }

    /** The loop of `add_cell_recursive`, once `c` is in the tree. */
    method AddDaughters(cells: map<Id, Links>, c: Id, ghost k0: map<Id, seq<Id>>, ghost p0: map<Id, Option<Id>>)
      returns (err: Option<TreeError>)
      requires Valid() && c in cells && Closed(cells) && c in kids && c !in k0
      requires k0.Keys == p0.Keys && k0.Keys + {c} <= kids.Keys
      requires Grows(k0, p0, kids, par) && AddedFrom(cells, c, k0, kids, par) && LinksKept(cells, k0, kids, Some(c))
      requires OnlyMotherGains(k0, kids, c, cells[c].bpointer) && kids[c] == []
      requires cells[c].bpointer.Some? ==> cells[c].bpointer.value in k0
      modifies this`kids, this`par, this`root, this`depth, this`bound
      ensures Valid() && c in kids
      ensures Grows(k0, p0, kids, par)
      ensures AddedFrom(cells, c, k0, kids, par)
      ensures err.None? ==> LinksKept(cells, k0, kids, None)
      ensures OnlyMotherGains(k0, kids, c, cells[c].bpointer)
      ensures kids[c] <= LinkedDaughters(cells, cells[c].childs, c)
      ensures err.None? ==> kids[c] == LinkedDaughters(cells, cells[c].childs, c)
      ensures err.Some? ==> err == Some(DuplicatedNodeId) && Collided(cells, k0, kids)
      decreases |cells.Keys - kids.Keys|, 3
    {
      err := None;
      var chs := cells[c].childs;
      var i := 0;
      ghost var m := |cells.Keys - kids.Keys|;
      while i < |chs|
        invariant 0 <= i <= |chs| && err.None?
        invariant Valid() && c in kids
        invariant k0.Keys + {c} <= kids.Keys && |cells.Keys - kids.Keys| <= m
        invariant Grows(k0, p0, kids, par)
        invariant AddedFrom(cells, c, k0, kids, par)
        invariant Claimed(cells, c, chs[..i], kids.Keys)
        invariant LinksKept(cells, k0, kids, Some(c))
        invariant OnlyMotherGains(k0, kids, c, cells[c].bpointer)
        invariant kids[c] == LinkedDaughters(cells, chs[..i], c)
      {
        err := AddDaughter(cells, c, k0, p0, chs, i);
        if err.Some? {
          return;
        }
        i := i + 1;
      }
      TakeAll(chs);
      LinksKeptClose(cells, c, k0, kids);
    }

    /** One turn of that loop: the daughter `chs[i]` is added, with its own
      daughters, when its back-pointer names `c`, and skipped otherwise. */
    method AddDaughter(cells: map<Id, Links>, c: Id, ghost k0: map<Id, seq<Id>>, ghost p0: map<Id, Option<Id>>,
                       chs: seq<Id>, i: nat)
      returns (err: Option<TreeError>)
      requires Valid() && c in cells && Closed(cells) && c in kids && c !in k0
      requires chs == cells[c].childs && i < |chs|
      requires k0.Keys == p0.Keys && k0.Keys + {c} <= kids.Keys
      requires Grows(k0, p0, kids, par) && AddedFrom(cells, c, k0, kids, par) && LinksKept(cells, k0, kids, Some(c))
      requires Claimed(cells, c, chs[..i], kids.Keys)
      requires OnlyMotherGains(k0, kids, c, cells[c].bpointer) && kids[c] == LinkedDaughters(cells, chs[..i], c)
      requires cells[c].bpointer.Some? ==> cells[c].bpointer.value in k0
      modifies this`kids, this`par, this`root, this`depth, this`bound
      ensures Valid() && c in kids
      ensures k0.Keys + {c} <= kids.Keys && |cells.Keys - kids.Keys| <= |cells.Keys - old(kids).Keys|
      ensures Grows(k0, p0, kids, par) && AddedFrom(cells, c, k0, kids, par)
      ensures OnlyMotherGains(k0, kids, c, cells[c].bpointer)
      ensures err.Some? ==> kids[c] <= LinkedDaughters(cells, chs, c)
      ensures err.Some? ==> err == Some(DuplicatedNodeId) && Collided(cells, k0, kids)
      ensures cells[chs[i]].bpointer != Some(c) ==> err.None? && kids == old(kids) && par == old(par)
      ensures err.None? ==>
                Claimed(cells, c, chs[..i + 1], kids.Keys) && LinksKept(cells, k0, kids, Some(c))
                && kids[c] == LinkedDaughters(cells, chs[..i + 1], c)
      decreases |cells.Keys - kids.Keys|, 2
    {
      err := None;
      var ch := chs[i];
      if cells[ch].bpointer != Some(c) {
        TakeOneMore(chs, i);
        LinkedStep(cells, chs, i, c);
        ClaimedStep(cells, c, chs[..i], ch, kids.Keys, kids.Keys);
        return;
      }
      err := AddLinkedDaughter(cells, c, k0, p0, chs, i);
    }

    /** The turn of that loop for a daughter whose back-pointer names `c`. */
    method AddLinkedDaughter(cells: map<Id, Links>, c: Id, ghost k0: map<Id, seq<Id>>, ghost p0: map<Id, Option<Id>>,
                             chs: seq<Id>, i: nat)
      returns (err: Option<TreeError>)
      requires Valid() && c in cells && Closed(cells) && c in kids && c !in k0
      requires chs == cells[c].childs && i < |chs|
      requires k0.Keys == p0.Keys && k0.Keys + {c} <= kids.Keys
      requires Grows(k0, p0, kids, par) && AddedFrom(cells, c, k0, kids, par) && LinksKept(cells, k0, kids, Some(c))
      requires Claimed(cells, c, chs[..i], kids.Keys)
      requires OnlyMotherGains(k0, kids, c, cells[c].bpointer) && kids[c] == LinkedDaughters(cells, chs[..i], c)
      requires cells[c].bpointer.Some? ==> cells[c].bpointer.value in k0
      requires cells[chs[i]].bpointer == Some(c)
      modifies this`kids, this`par, this`root, this`depth, this`bound
      ensures Valid() && c in kids
      ensures k0.Keys + {c} <= kids.Keys && |cells.Keys - kids.Keys| <= |cells.Keys - old(kids).Keys|
      ensures Grows(k0, p0, kids, par) && AddedFrom(cells, c, k0, kids, par)
      ensures OnlyMotherGains(k0, kids, c, cells[c].bpointer)
      ensures err.Some? ==> kids[c] <= LinkedDaughters(cells, chs, c)
      ensures err.Some? ==> err == Some(DuplicatedNodeId) && Collided(cells, k0, kids)
      ensures err.None? ==>
                Claimed(cells, c, chs[..i + 1], kids.Keys) && LinksKept(cells, k0, kids, Some(c))
                && kids[c] == LinkedDaughters(cells, chs[..i + 1], c)
      decreases |cells.Keys - kids.Keys|, 1
    {
      var ch := chs[i];
      ghost var k1, p1, r1, d1, b1 := kids, par, root, depth, bound;
      err := AddCellRecursive(cells, ch);
      LinkedDaughterStep(cells, c, k0, p0, chs, i, k1, p1, r1, d1, b1, kids, par, err);
    }

    /** `decompose`: with `independent`, the preorder over the randomised
      child order cut after every leaf (an empty colony has no node to start
      from); without it, the root-to-leaf paths. The result is also kept in
      `idseqs`. */
    method Decompose(independent: bool, order: map<Id, seq<Id>>) returns (r: Option<seq<seq<Id>>>)
      requires Valid() && Reorders(order, kids)
      modifies this`idseqs
      ensures root.None? && independent ==> r.None? && idseqs == old(idseqs)
      ensures root.None? && !independent ==> r == Some([]) && idseqs == r
      ensures root.Some? ==>
                (ReorderShaped(order, kids, par, depth, bound);
                 r.Some? && idseqs == r
                 && r.value == if independent then Cut(order, Preorder(order, depth, bound, root.value), [])
                               else RootPaths(kids, depth, bound, root.value))
    {
      if root.None? {
        if independent {
          return None;
        }
        r := Some([]);
        idseqs := r;
        return;
      }
      if !independent {
        r := Some(RootPaths(kids, depth, bound, root.value));
        idseqs := r;
        return;
      }
      ReorderShaped(order, kids, par, depth, bound);
      var nids := Preorder(order, depth, bound, root.value);
      var acc := CutAtLeaves(order, nids);
      r := Some(acc);
      idseqs := r;
    }

    /** `iter_lineages`, collected: the cached lineages (a copy) or, when
      none are cached, a fresh independent decomposition; shuffled if asked;
      then those the filter accepts, at most `size` of them. A fresh
      decomposition is the very list `decompose` cached, so shuffling it
      reorders the cache too; a copy of a cached list leaves the cache as it
      was. */
    method IterLineages(accept: seq<Id> -> bool, size: Option<int>, shuffle: bool,
                        shuffler: seq<seq<Id>> -> seq<seq<Id>>, order: map<Id, seq<Id>>) returns (r: Option<seq<seq<Id>>>)
      requires Valid() && Reorders(order, kids)
      requires forall s :: multiset(shuffler(s)) == multiset(s)
      modifies this`idseqs
      ensures old(idseqs).Some? ==>
                idseqs == old(idseqs)
                && r == Some(UpTo(Accepted(if shuffle then shuffler(old(idseqs).value) else old(idseqs).value, accept), size))
      ensures old(idseqs).None? && root.None? ==> idseqs.None? && r.None?
      ensures old(idseqs).None? && root.Some? ==>
                (ReorderShaped(order, kids, par, depth, bound);
                 var d := Cut(order, Preorder(order, depth, bound, root.value), []);
                 idseqs == Some(if shuffle then shuffler(d) else d)
                 && multiset(idseqs.value) == multiset(d)
                 && r == Some(UpTo(Accepted(idseqs.value, accept), size)))
    {
      var ids: seq<seq<Id>>;
      if idseqs.None? {
        var d := Decompose(true, order);
        if d.None? {
          return None;
        }
        ids := d.value;
        if shuffle {
          ids := shuffler(ids);
          idseqs := Some(ids);
        }
      } else {
        ids := idseqs.value;
        if shuffle {
          ids := shuffler(ids);
        }
      }
      var lins := Select(ids, accept, size);
      r := Some(lins);
    }
  }

  /** The loop of `decompose`: each id joins the current lineage, and a leaf
      closes it. */
  method CutAtLeaves(a: map<Id, seq<Id>>, nids: seq<Id>) returns (acc: seq<seq<Id>>)
    ensures acc == Cut(a, nids, [])
  {
    acc := [];
    var cur: seq<Id> := [];
    var i := 0;
    while i < |nids|
      invariant 0 <= i <= |nids|
      invariant acc + Cut(a, nids[i..], cur) == Cut(a, nids, [])
    {
      assert nids[i..][1..] == nids[i + 1..];
      cur := cur + [nids[i]];
      if IsLeaf(a, nids[i]) {
        acc := acc + [cur];
        cur := [];
      }
      i := i + 1;
    }
    assert nids[i..] == [];
  }

  /** The loop of `iter_lineages`. */
  method Select(ids: seq<seq<Id>>, accept: seq<Id> -> bool, size: Option<int>) returns (lins: seq<seq<Id>>)
    ensures lins == UpTo(Accepted(ids, accept), size)
  {
    var count := 0;
    lins := [];
    var i := 0;
    while i < |ids|
      invariant 0 <= i <= |ids|
      invariant lins == Accepted(ids[..i], accept) && count == |lins|
      invariant size.Some? ==> count <= (if size.value < 0 then 0 else size.value)
    {
      if size.Some? && count > size.value - 1 {
        StopEarly(ids, i, accept, size.value);
        return;
      }
      AcceptedAppend(ids[..i], [ids[i]], accept);
      assert ids[..i + 1] == ids[..i] + [ids[i]];
      if accept(ids[i]) {
        count := count + 1;
        lins := lins + [ids[i]];
      }
      i := i + 1;
    }
    assert ids[..i] == ids;
  }

  lemma StopEarly(ids: seq<seq<Id>>, i: nat, accept: seq<Id> -> bool, size: int)
    requires i <= |ids|
    requires |Accepted(ids[..i], accept)| > size - 1
    requires |Accepted(ids[..i], accept)| <= (if size < 0 then 0 else size)
    ensures Accepted(ids[..i], accept) == UpTo(Accepted(ids, accept), Some(size))
  {
    AcceptedAppend(ids[..i], ids[i..], accept);
    assert ids[..i] + ids[i..] == ids;
  }
}
