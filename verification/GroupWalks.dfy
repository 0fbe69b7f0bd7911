/** The three walks over the department tree: two downward searches and the walk to the top. */
module GroupWalks {
  import opened Forest
  import opened Values

  datatype Group = Group(
    name: string, description: Option<string>, parent: Option<Id>, sortOrder: int, created: int)

  type Groups = map<Id, Group>

  /** A department's parent; the empty id counts as none. */
  predicate HasParent(g: Group) {
    g.parent.Some? && g.parent.value != ""
  }

  function ParentsOf(groups: Groups): Parents {
    map id | id in groups && HasParent(groups[id]) :: groups[id].parent.value
  }

  ghost predicate Distinct(ids: seq<Id>) {
    forall i, j :: 0 <= i < j < |ids| ==> ids[i] != ids[j]
  }

  /** All rows of the table, in some order. */
  method ListIds(groups: Groups) returns (ids: seq<Id>)
    ensures Distinct(ids) && forall id :: id in ids <==> id in groups
  {
    ids := [];
    var rest := groups.Keys;
    while rest != {}
      invariant Distinct(ids) && rest <= groups.Keys
      invariant forall id :: id in ids <==> id in groups && id !in rest
      decreases rest
    {
      var id :| id in rest;
      ids := ids + [id];
      rest := rest - {id};
    }
  }

  /** `childrenMap.get(id) ?? []` */
  function ChildrenOf(children: map<Id, seq<Id>>, id: Id): seq<Id> {
    if id in children then children[id] else []
  }

  method BuildChildrenMap(groups: Groups) returns (children: map<Id, seq<Id>>)
    ensures forall p, c :: c in ChildrenOf(children, p) <==> c in ParentsOf(groups) && ParentsOf(groups)[c] == p
  {
    var all := ListIds(groups);
    children := map[];
    for k := 0 to |all|
      invariant forall p, c ::
                  c in ChildrenOf(children, p) <==>
                  c in all[..k] && c in ParentsOf(groups) && ParentsOf(groups)[c] == p
    {
      var id := all[k];
      assert all[..k + 1] == all[..k] + [id];
      ghost var before := children;
      if HasParent(groups[id]) {
        var p := groups[id].parent.value;
        children := children[p := ChildrenOf(children, p) + [id]];
      }
      assert forall p ::
          ChildrenOf(children, p) ==
          if HasParent(groups[id]) && groups[id].parent.value == p then ChildrenOf(before, p) + [id]
          else ChildrenOf(before, p);
    }
    assert all[..|all|] == all;
  }

  /** What lies below a department, without the department itself. */
  ghost predicate Below(p: Parents, ids: seq<Id>, root: Id) {
    Distinct(ids) && forall d :: d in ids <==> Under(p, d, root) && d != root
  }

  lemma AllUnderFound(p: Parents, root: Id, visited: set<Id>)
    requires root in visited && forall y :: y in p && p[y] in visited ==> y in visited
    ensures forall d :: Under(p, d, root) ==> d in visited
  {
    forall d | Under(p, d, root) ensures d in visited {
      var n: nat :| Up(p, d, n) == Some(root);
      ClosedHoldsUnder(p, root, visited, d, n);
    }
  }

  /** All departments below `groupId`; cycles in the data do not trap the search. */
  method DescendantGroupIds(groups: Groups, groupId: Id) returns (result: seq<Id>)
    ensures Below(ParentsOf(groups), result, groupId)
  {
    ghost var p := ParentsOf(groups);
    var children := BuildChildrenMap(groups);
    result := [];
    var visited := {groupId};
    var stack := ChildrenOf(children, groupId);
    UnderSelf(p, groupId);
    hide ParentsOf, Under, ChildrenOf;
    forall c | c in stack ensures Under(p, c, groupId) { UnderStep(p, c, groupId); }
    while stack != []
      invariant groupId in visited && visited <= p.Keys + {groupId}
      invariant forall d :: d in visited || d in stack ==> Under(p, d, groupId)
      invariant forall d :: d in stack ==> d in p
      invariant Distinct(result) && forall d :: d in result <==> d in visited && d != groupId
      invariant forall y :: y in p && p[y] in visited ==> y in visited || y in stack
      decreases p.Keys + {groupId} - visited, |stack|
    {
      var id := stack[|stack| - 1];
      stack := stack[..|stack| - 1];
      if id in visited { continue; }
      visited := visited + {id};
      result := result + [id];
      ghost var pushed := ChildrenOf(children, id);
      forall c | c in pushed ensures Under(p, c, groupId) { UnderStep(p, c, groupId); }
      stack := stack + ChildrenOf(children, id);
    }
    AllUnderFound(p, groupId, visited);
  }

  /** The department of a user and all departments below it; none for a user without department. */
  method MyScopeGroupIds(groups: Groups, direct: Option<Id>) returns (scope: seq<Id>)
    ensures direct.None? ==> scope == []
    ensures direct.Some? ==>
              Distinct(scope) && forall d :: d in scope <==> Under(ParentsOf(groups), d, direct.value)
  {
    if direct.None? { return []; }
    var root := direct.value;
    ghost var p := ParentsOf(groups);
    var children := BuildChildrenMap(groups);
    scope := [];
    var seen: set<Id> := {};
    var stack := [root];
    UnderSelf(p, root);
    hide ParentsOf, Under, ChildrenOf;
    while stack != []
      invariant seen <= p.Keys + {root} && (root in seen || root in stack)
      invariant forall d :: d in seen || d in stack ==> Under(p, d, root)
      invariant forall d :: d in stack ==> d in p.Keys + {root}
      invariant Distinct(scope) && forall d :: d in scope <==> d in seen
      invariant forall y :: y in p && p[y] in seen ==> y in seen || y in stack
      decreases p.Keys + {root} - seen, |stack|
    {
      var gid := stack[|stack| - 1];
      stack := stack[..|stack| - 1];
      if gid in seen { continue; }
      seen := seen + {gid};
      scope := scope + [gid];
      ghost var pushed := ChildrenOf(children, gid);
      forall c | c in pushed ensures Under(p, c, root) { UnderStep(p, c, root); }
      stack := stack + ChildrenOf(children, gid);
    }
    AllUnderFound(p, root, seen);
  }

  const MAX_STEPS := 50

  /** `ids` are what fewer steps than the cap reach from `g`. */
  ghost predicate Reached(p: Parents, g: Id, ids: seq<Id>) {
    forall a :: a in ids <==> exists n: nat :: n < MAX_STEPS && Up(p, g, n) == Some(a)
  }

  /** The department and its ancestors, nearest first, at most 50 of them. */
  method AncestorGroupIds(groups: Groups, groupId: Id) returns (ids: seq<Id>)
    requires groupId != ""
    ensures |ids| <= MAX_STEPS && Distinct(ids)
    ensures forall k :: 0 <= k < |ids| ==> Up(ParentsOf(groups), groupId, k) == Some(ids[k])
    ensures Reached(ParentsOf(groups), groupId, ids)
  {
    ghost var p := ParentsOf(groups);
    ids := [];
    var current := Some(groupId);
    while current.Some? && current.value !in ids && |ids| < MAX_STEPS
      invariant |ids| <= MAX_STEPS && Distinct(ids)
      invariant forall k :: 0 <= k < |ids| ==> Up(p, groupId, k) == Some(ids[k])
      invariant current == Up(p, groupId, |ids|)
      decreases MAX_STEPS - |ids|
    {
      var id := current.value;
      ghost var n := |ids|;
      ids := ids + [id];
      UpAdd(p, groupId, n, 1);
      assert Up(p, id, 1) == if id in p then Some(p[id]) else None;
      current := if id in groups && HasParent(groups[id]) then groups[id].parent else None;
    }
    forall a | exists n: nat :: n < MAX_STEPS && Up(p, groupId, n) == Some(a) ensures a in ids {
      var n: nat :| n < MAX_STEPS && Up(p, groupId, n) == Some(a);
      WalkFound(p, groupId, ids, current, n);
    }
    forall a | a in ids ensures exists n: nat :: n < MAX_STEPS && Up(p, groupId, n) == Some(a) {
      var k :| 0 <= k < |ids| && ids[k] == a;
      assert Up(p, groupId, k) == Some(a);
    }
  }

  /** When the walk has stopped, every ancestor within the cap has been met. */
  lemma WalkFound(p: Parents, x: Id, ids: seq<Id>, current: Option<Id>, n: nat)
    requires forall k :: 0 <= k < |ids| ==> Up(p, x, k) == Some(ids[k])
    requires current == Up(p, x, |ids|) && (current.None? || current.value in ids || |ids| == MAX_STEPS)
    requires n < MAX_STEPS && Up(p, x, n).Some?
    ensures Up(p, x, n).value in ids
  {
    if n < |ids| {
      assert Up(p, x, n) == Some(ids[n]);
    } else if current.None? {
      WalkEnds(p, x, |ids|, n);
    } else {
      var j :| 0 <= j < |ids| && ids[j] == current.value;
      var k := WalkRepeats(p, x, |ids|, j, n);
      assert Up(p, x, k) == Some(ids[k]);
    }
  }

  /** After as many steps as the cap allows, the walk up from `g` has ended or is back where it has been. */
  ghost predicate FitsCap(p: Parents, g: Id) {
    Up(p, g, MAX_STEPS).None? || exists n: nat :: n < MAX_STEPS && Up(p, g, n) == Up(p, g, MAX_STEPS)
  }

  /**
   Upward and downward agree: the departments whose documents a member of `g` sees by going up are those
   whose scope holds `g`, exactly when the walk up from `g` fits the cap.
   */
  lemma WalksAgree(groups: Groups, g: Id, ids: seq<Id>)
    requires Reached(ParentsOf(groups), g, ids)
    ensures (forall a :: a in ids <==> Under(ParentsOf(groups), g, a)) <==> FitsCap(ParentsOf(groups), g)
  {
    var p := ParentsOf(groups);
    if FitsCap(p, g) {
      forall a ensures a in ids <==> Under(p, g, a) {
        if Under(p, g, a) { MetWithinCap(p, g, a); }
      }
    } else {
      var top := Up(p, g, MAX_STEPS).value;
      assert Under(p, g, top);
    }
  }

  lemma MetWithinCap(p: Parents, g: Id, a: Id)
    requires FitsCap(p, g) && Under(p, g, a)
    ensures exists n: nat :: n < MAX_STEPS && Up(p, g, n) == Some(a)
  {
    var n: nat :| Up(p, g, n) == Some(a);
    if n >= MAX_STEPS {
      if Up(p, g, MAX_STEPS).None? {
        WalkEnds(p, g, MAX_STEPS, n);
      } else {
        var j: nat :| j < MAX_STEPS && Up(p, g, j) == Up(p, g, MAX_STEPS);
        var k := WalkRepeats(p, g, MAX_STEPS, j, n);
      }
    }
  }

  /** In a forest no walk comes back, so that only chains of at most 50 departments fit. */
  lemma ForestFits(p: Parents, g: Id)
    requires Acyclic(p)
    ensures FitsCap(p, g) <==> Up(p, g, MAX_STEPS).None?
  {
    if Up(p, g, MAX_STEPS).Some? {
      forall n: nat | n < MAX_STEPS ensures Up(p, g, n) != Up(p, g, MAX_STEPS) { NotMetBefore(p, g, n, MAX_STEPS); }
    }
  }

  lemma NotMetBefore(p: Parents, x: Id, m: nat, n: nat)
    requires Acyclic(p) && m < n && Up(p, x, n).Some?
    ensures Up(p, x, m) != Up(p, x, n)
  {
    if Up(p, x, m).Some? { UpAdd(p, x, m, n - m); }
  }

  // ----- where the cap cuts -----

  function ChainId(k: nat): Id {
    seq(k + 1, _ => 'd')
  }

  /** `size` departments, each below the one before it. */
  function Chain(size: nat): Groups {
    if size == 0 then map[]
    else
      var parent := if size == 1 then None else Some(ChainId(size - 2));
      Chain(size - 1)[ChainId(size - 1) := Group("", None, parent, 0, 0)]
  }

  lemma ChainIdsDiffer(j: nat, k: nat)
    ensures ChainId(j) == ChainId(k) <==> j == k
  {
    assert |ChainId(j)| == j + 1 && |ChainId(k)| == k + 1;
  }

  lemma {:induction false} ChainRows(size: nat, id: Id)
    ensures id in Chain(size) <==> exists k: nat :: k < size && id == ChainId(k)
    ensures forall k: nat :: k < size && id == ChainId(k) ==>
              Chain(size)[id].parent == if k == 0 then None else Some(ChainId(k - 1))
  {
    if size > 0 {
      ChainRows(size - 1, id);
      forall k: nat ensures ChainId(size - 1) == ChainId(k) <==> k == size - 1 { ChainIdsDiffer(size - 1, k); }
      hide ChainId;
    }
  }

  lemma ChainParents(size: nat, k: nat)
    requires k < size
    ensures ChainId(k) in ParentsOf(Chain(size)) <==> k > 0
    ensures k > 0 ==> ParentsOf(Chain(size))[ChainId(k)] == ChainId(k - 1)
  {
    ChainRows(size, ChainId(k));
    if k > 0 { assert ChainId(k - 1) != ""; }
  }

  lemma {:induction false} ChainUp(size: nat, k: nat, n: nat)
    requires k < size
    ensures Up(ParentsOf(Chain(size)), ChainId(k), n) == if n <= k then Some(ChainId(k - n)) else None
    decreases n
  {
    ChainParents(size, k);
    hide Chain, ChainId, ParentsOf;
    if n > 0 && k > 0 { ChainUp(size, k - 1, n - 1); }
  }

  lemma ChainAcyclic(size: nat)
    ensures Acyclic(ParentsOf(Chain(size)))
  {
    var p := ParentsOf(Chain(size));
    forall x: Id, n: nat | n > 0 ensures Up(p, x, n) != Some(x) {
      if x in p {
        ChainRows(size, x);
        var k: nat :| k < size && x == ChainId(k);
        ChainUp(size, k, n);
        if n <= k { ChainIdsDiffer(k - n, k); }
      }
    }
  }

  /**
   Of a chain of 51 departments, the last one lies below the first one, which is not among those the walk up from
   it finds; with 50 there is none that it misses.
   */
  lemma ChainExactly(size: nat, ids: seq<Id>)
    requires size > 0 && Reached(ParentsOf(Chain(size)), ChainId(size - 1), ids)
    ensures Acyclic(ParentsOf(Chain(size))) && Under(ParentsOf(Chain(size)), ChainId(size - 1), ChainId(0))
    ensures ChainId(0) in ids <==> size <= 50
    ensures (forall a :: a in ids <==> Under(ParentsOf(Chain(size)), ChainId(size - 1), a)) <==> size <= 50
  {
    var p, last := ParentsOf(Chain(size)), ChainId(size - 1);
    ChainAcyclic(size);
    ChainUp(size, size - 1, MAX_STEPS);
    forall n: nat ensures Up(p, last, n) == Some(ChainId(0)) <==> n == size - 1 {
      ChainUp(size, size - 1, n);
      if n <= size - 1 { ChainIdsDiffer(size - 1 - n, 0); }
    }
    hide Chain, ChainId, ParentsOf, Acyclic, FitsCap;
    assert Up(p, last, size - 1) == Some(ChainId(0));
    ForestFits(p, last);
    WalksAgree(Chain(size), last, ids);
  }
}
