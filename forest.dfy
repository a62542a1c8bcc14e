/** The shape of the node table of a colony: child lists, back-pointers
    and depths that agree with one another. */
module Forests {
  import opened Wrappers

  type Id = string

  /** Every child of a node lies one generation deeper, and all depths are
      below `bound`: what makes the traversals of a colony terminate. */
  ghost predicate Ranked(a: map<Id, seq<Id>>, d: map<Id, nat>, bound: nat) {
    && (forall n :: n in a ==> n in d && d[n] < bound)
    && (forall n, i :: n in a && 0 <= i < |a[n]| ==> a[n][i] in a && a[n][i] in d && d[a[n][i]] == d[n] + 1)
  }

  /** `a` is a forest: every listed child is a node whose back-pointer names
      the node listing it, no child is listed twice, each back-pointer is
      matched by a listing, and nodes without a back-pointer are at depth 0. */
  ghost predicate Shaped(a: map<Id, seq<Id>>, par: map<Id, Option<Id>>, d: map<Id, nat>, bound: nat) {
    && Ranked(a, d, bound)
    && (forall n :: n in a ==> n in par && NoDup(a[n]))
    && (forall n, i :: n in a && 0 <= i < |a[n]| ==> a[n][i] in par && par[a[n][i]] == Some(n))
    && (forall n :: n in a && par[n].Some? ==>
          par[n].value in a && n in a[par[n].value] && d[n] == d[par[n].value] + 1)
    && (forall n :: n in a && par[n].None? ==> d[n] == 0)
  }

  /** The invariant of a colony: a tree with one root (or no node at all). */
  ghost predicate Tree(kids: map<Id, seq<Id>>, par: map<Id, Option<Id>>, root: Option<Id>, d: map<Id, nat>, bound: nat) {
    && kids.Keys == par.Keys
    && Shaped(kids, par, d, bound)
    && (root.None? ==> kids == map[])
    && (root.Some? ==> root.value in kids && par[root.value].None?)
    && (forall n :: n in kids && par[n].None? ==> root == Some(n))
  }
}
