/** The department table and every operation that changes it. */
module Departments {
  import opened Forest
  import opened GroupWalks
  import opened Values

  /** No department lies under itself, and every parent exists. */
  ghost predicate IsForest(groups: Groups) {
    && Acyclic(ParentsOf(groups))
    && forall id :: id in groups && groups[id].parent.Some? ==> groups[id].parent.value != "" && groups[id].parent.value in groups
  }

  datatype Outcome = Accepted | SelfParent | ParentMissing | Cycle | NotFound

  /** A parent argument: the empty id stands for none. */
  function Normal(parent: Option<Id>): Option<Id> {
    if parent == Some("") then None else parent
  }

  ghost function ParentCheck(groups: Groups, parent: Id, self: Option<Id>): Outcome {
    if self == Some(parent) then SelfParent
    else if parent !in groups then ParentMissing
    else if self.Some? && Under(ParentsOf(groups), parent, self.value) then Cycle
    else Accepted
  }

  predicate IsChild(groups: Groups, id: Id, parent: Option<Id>) {
    id in groups && groups[id].parent == parent
  }

  /** `n` places a department behind all others with the same parent. */
  ghost predicate IsNextSort(groups: Groups, parent: Option<Id>, n: int) {
    && (forall id :: IsChild(groups, id, parent) ==> groups[id].sortOrder < n)
    && (if forall id :: !IsChild(groups, id, parent) then n == 0
        else exists id :: IsChild(groups, id, parent) && groups[id].sortOrder == n - 1)
  }

  // ----- rows that change without touching the tree -----

  ghost predicate SameTree(a: Groups, b: Groups) {
    a.Keys == b.Keys && forall id :: id in a ==> a[id].parent == b[id].parent
  }

  lemma SameTreeForest(a: Groups, b: Groups)
    requires SameTree(a, b) && IsForest(a)
    ensures IsForest(b)
  {
    assert ParentsOf(a) == ParentsOf(b);
  }

  /** Hanging `self` under `parent`, with any other change to its row. */
  lemma ReparentForest(groups: Groups, self: Id, parent: Id, g: Group)
    requires IsForest(groups) && self in groups && parent in groups && parent != "" && g.parent == Some(parent)
    ensures IsForest(groups[self := g]) <==> !Under(ParentsOf(groups), parent, self)
  {
    var after := groups[self := g];
    assert ParentsOf(after) == ParentsOf(groups)[self := parent];
    ReparentAcyclic(ParentsOf(groups), self, parent);
    assert forall id :: id in after && id != self ==> after[id] == groups[id];
  }

  lemma RootForest(groups: Groups, self: Id, g: Group)
    requires IsForest(groups) && self in groups && g.parent == None
    ensures IsForest(groups[self := g])
  {
    FewerParentsAcyclic(ParentsOf(groups), ParentsOf(groups[self := g]));
  }

  lemma NewForest(groups: Groups, id: Id, g: Group)
    requires IsForest(groups) && id !in groups && (g.parent.Some? ==> g.parent.value != "" && g.parent.value in groups)
    ensures IsForest(groups[id := g])
  {
    var after := groups[id := g];
    if g.parent.Some? {
      assert ParentsOf(after) == ParentsOf(groups)[id := g.parent.value];
      NewLeafAcyclic(ParentsOf(groups), id, g.parent.value);
    } else {
      assert ParentsOf(after) == ParentsOf(groups);
    }
  }

  /** Removing a department with all that lies below it leaves no row that names a removed one. */
  lemma RemovedForest(groups: Groups, id: Id, gone: set<Id>)
    requires IsForest(groups) && forall d :: d in gone <==> Under(ParentsOf(groups), d, id)
    ensures IsForest(groups - gone)
    ensures forall k :: k in groups && k !in gone && groups[k].parent.Some? ==> groups[k].parent.value !in gone
  {
    var p := ParentsOf(groups);
    forall k | k in groups && k !in gone && groups[k].parent.Some? ensures groups[k].parent.value !in gone {
      if groups[k].parent.value in gone { UnderStep(p, k, id); }
    }
    FewerParentsAcyclic(p, ParentsOf(groups - gone));
  }

  // ----- sibling order -----

  predicate Before(g: Group, h: Group) {
    g.sortOrder < h.sortOrder || (g.sortOrder == h.sortOrder && g.created <= h.created)
  }

  ghost predicate Siblings(groups: Groups, parent: Option<Id>, ids: seq<Id>) {
    && Distinct(ids)
    && (forall k :: 0 <= k < |ids| ==> IsChild(groups, ids[k], parent))
    && (forall id :: IsChild(groups, id, parent) ==> id in ids)
  }

  ghost predicate SiblingList(groups: Groups, parent: Option<Id>, ids: seq<Id>) {
    && Siblings(groups, parent, ids)
    && (forall i, j :: 0 <= i < j < |ids| ==>
          var g, h := groups[ids[i]], groups[ids[j]];
          g.sortOrder < h.sortOrder || (g.sortOrder == h.sortOrder && g.created <= h.created))
  }

  function Swapped(ids: seq<Id>, i: nat, j: nat): (r: seq<Id>)
    requires i < |ids| && j < |ids|
    ensures |r| == |ids| && r[i] == ids[j] && r[j] == ids[i]
    ensures forall k :: 0 <= k < |ids| && k != i && k != j ==> r[k] == ids[k]
  {
    ids[i := ids[j]][j := ids[i]]
  }

  /** The siblings renumbered in the order of `ids`. */
  ghost predicate Renumbered(before: Groups, after: Groups, ids: seq<Id>) {
    && after.Keys == before.Keys
    && (forall k :: 0 <= k < |ids| && ids[k] in before ==> after[ids[k]] == before[ids[k]].(sortOrder := k))
    && (forall id :: id in before && id !in ids ==> after[id] == before[id])
  }

  lemma RenumberedTree(before: Groups, after: Groups, ids: seq<Id>)
    requires Renumbered(before, after, ids)
    ensures SameTree(before, after)
  {
    forall id | id in before ensures before[id].parent == after[id].parent {
      if id in ids {
        var k :| 0 <= k < |ids| && ids[k] == id;
      }
    }
  }

  /** After renumbering, the list in its new order is the sibling list. */
  lemma RenumberedList(before: Groups, after: Groups, parent: Option<Id>, ids: seq<Id>)
    requires Renumbered(before, after, ids) && Siblings(before, parent, ids)
    ensures SiblingList(after, parent, ids)
  {
    RenumberedTree(before, after, ids);
    forall k | 0 <= k < |ids| ensures IsChild(after, ids[k], parent) {
      assert IsChild(before, ids[k], parent);
    }
    forall id | IsChild(after, id, parent) ensures id in ids {
      assert IsChild(before, id, parent);
    }
    forall i, j | 0 <= i < j < |ids| ensures Before(after[ids[i]], after[ids[j]]) {
      assert IsChild(before, ids[i], parent) && IsChild(before, ids[j], parent);
    }
  }

  // ----- rows of a CSV import -----

  datatype Row = Row(name: string, description: string, parentName: string, sortOrder: Option<int>)

  /** Rows with a name, and rows that also name a parent. */
  predicate Named(r: Row) { r.name != "" }
  predicate Hangs(r: Row) { Named(r) && r.parentName != "" }

  ghost predicate Mentioned(rows: seq<Row>, name: string) {
    exists k :: 0 <= k < |rows| && rows[k].name == name
  }

  function NamedCount(rows: seq<Row>): nat {
    if rows == [] then 0 else NamedCount(rows[..|rows| - 1]) + if Named(rows[|rows| - 1]) then 1 else 0
  }

  /** Names and the departments found or created for them. */
  ghost predicate Index(groups: Groups, idByName: map<string, Id>) {
    forall n :: n in idByName ==> idByName[n] in groups && groups[idByName[n]].name == n
  }

  /** Departments keep their names, and those the file does not mention keep everything. */
  ghost predicate Untouched(before: Groups, after: Groups, rows: seq<Row>) {
    forall id :: id in before ==>
      && id in after && after[id].name == before[id].name
      && (Mentioned(rows, before[id].name) || after[id] == before[id])
  }

  /** One row's work: at most the department `id` changed, and it is the one the row names. */
  ghost predicate OneRow(was: Groups, now: Groups, id: Id, name: string) {
    && now.Keys == was.Keys + {id} && now[id].name == name && (id in was ==> was[id].name == name)
    && forall k :: k in was && k != id ==> now[k] == was[k]
  }

  lemma IndexKept(was: Groups, now: Groups, id: Id, name: string, idByName: map<string, Id>)
    requires OneRow(was, now, id, name) && Index(was, idByName)
    ensures Index(now, idByName) && Index(now, idByName[name := id])
  {
  }

  lemma UntouchedKept(before: Groups, was: Groups, now: Groups, rows: seq<Row>, k: nat, id: Id)
    requires k < |rows| && OneRow(was, now, id, rows[k].name) && Untouched(before, was, rows)
    ensures Untouched(before, now, rows)
  {
    assert Mentioned(rows, rows[k].name);
  }

  /** Of the first `k` rows, the named ones have their department and the others are reported. */
  ghost predicate Covered(rows: seq<Row>, k: nat, errors: seq<nat>, idByName: map<string, Id>)
    requires k <= |rows|
  {
    forall m :: 0 <= m < k ==> if Named(rows[m]) then rows[m].name in idByName else m + 1 in errors
  }

  lemma CoveredStep(rows: seq<Row>, k: nat, errors: seq<nat>, idByName: map<string, Id>, id: Id)
    requires k < |rows| && Covered(rows, k, errors, idByName)
    ensures Named(rows[k]) ==> Covered(rows, k + 1, errors, idByName[rows[k].name := id])
    ensures !Named(rows[k]) ==> Covered(rows, k + 1, errors + [k + 1], idByName)
  {
  }

  lemma RowCount(was: Groups, now: Groups, id: Id, name: string)
    requires OneRow(was, now, id, name)
    ensures |now| == |was| + (if id in was then 0 else 1)
    ensures forall k :: k in now <==> k in was || k == id
  {
    assert |now| == |now.Keys| && |was| == |was.Keys|;
    if id in was { assert now.Keys == was.Keys; }
  }

  /** Row `r` got the parent it names. */
  ghost predicate Hung(groups: Groups, r: Row, idByName: map<string, Id>) {
    && r.name in idByName && idByName[r.name] in groups
    && groups[idByName[r.name]].parent.Some?
    && groups[idByName[r.name]].parent.value in groups
    && groups[groups[idByName[r.name]].parent.value].name == r.parentName
  }

  /** The parent a row names: the department of that name from the file, else any department of that name. */
  ghost predicate FoundParent(groups: Groups, idByName: map<string, Id>, name: string, found: Option<Id>) {
    if name in idByName then found == Some(idByName[name])
    else if found.Some? then found.value in groups && groups[found.value].name == name
    else forall id :: id in groups ==> groups[id].name != name
  }

  /** There is no such parent, or it is the department itself or lies under it. */
  ghost predicate Unfit(groups: Groups, found: Option<Id>, self: Id) {
    found.None? || found.value == "" || Under(ParentsOf(groups), found.value, self)
  }

  /** The second pass over one row: refused exactly when the row names itself or an unfit parent, else hung there. */
  ghost predicate HangStep(was: Groups, now: Groups, r: Row, idByName: map<string, Id>, failed: bool) {
    && r.name in idByName && idByName[r.name] in was
    && var self := idByName[r.name];
       if r.parentName == r.name then failed && now == was
       else exists found :: FoundParent(was, idByName, r.parentName, found) && (failed <==> Unfit(was, found, self))
                            && now == if failed then was else was[self := was[self].(parent := found)]
  }

  /** Row `m` of the second pass, between two tables of the trace. */
  ghost predicate RowHung(trace: seq<Groups>, rows: seq<Row>, idByName: map<string, Id>, refused: seq<nat>, m: nat)
    requires m + 1 < |trace| && m < |rows|
  {
    if rows[m].name != "" && rows[m].parentName != "" then HangStep(trace[m], trace[m + 1], rows[m], idByName, m + 1 in refused)
    else trace[m + 1] == trace[m] && m + 1 !in refused
  }

  /** The second pass over the first `k` rows, with the table after each, and the numbers of the refused rows. */
  ghost predicate SecondPass(trace: seq<Groups>, rows: seq<Row>, idByName: map<string, Id>, refused: seq<nat>, k: nat)
    requires k <= |rows|
  {
    && |trace| == k + 1
    && (forall n :: n in refused ==> 1 <= n <= k)
    && (forall i, j :: 0 <= i < j < |refused| ==> refused[i] < refused[j])
    && (forall m: nat :: m < k ==> RowHung(trace, rows, idByName, refused, m))
  }

  lemma SecondPassStep(trace: seq<Groups>, now: Groups, rows: seq<Row>, idByName: map<string, Id>, refused: seq<nat>,
                       k: nat, failed: bool)
    requires k < |rows| && SecondPass(trace, rows, idByName, refused, k)
    requires if Hangs(rows[k]) then HangStep(trace[k], now, rows[k], idByName, failed) else now == trace[k] && !failed
    ensures SecondPass(trace + [now], rows, idByName, if failed then refused + [k + 1] else refused, k + 1)
  {
    hide HangStep;
    var more, longer := if failed then refused + [k + 1] else refused, trace + [now];
    assert k + 1 !in refused;
    forall i, j | 0 <= i < j < |more| ensures more[i] < more[j] {
      assert more[i] == refused[i];
      assert refused[i] in refused;
    }
    forall m: nat | m < k + 1 ensures RowHung(longer, rows, idByName, more, m) {
      if m < k {
        assert RowHung(trace, rows, idByName, refused, m);
        assert m + 1 in more <==> m + 1 in refused;
        assert longer[m] == trace[m] && longer[m + 1] == trace[m + 1];
      } else {
        assert longer[m] == trace[m] && longer[m + 1] == now;
      }
    }
  }

  lemma SecondPassStart(groups: Groups, rows: seq<Row>, idByName: map<string, Id>)
    ensures SecondPass([groups], rows, idByName, [], 0)
  {
  }

  /** The rows without a name, counted from 1. */
  function Unnamed(rows: seq<Row>): seq<nat> {
    if rows == [] then [] else Unnamed(rows[..|rows| - 1]) + if Named(rows[|rows| - 1]) then [] else [|rows|]
  }

  /** The first pass over one row: a new department, or one of that name with the given columns replaced. */
  ghost predicate NameStep(was: Groups, now: Groups, r: Row, newId: Id, time: int, id: Id) {
    && OneRow(was, now, id, r.name)
    && if id in was then
         now[id] == was[id].(
           description := if r.description != "" then Some(r.description) else was[id].description,
           sortOrder := if r.sortOrder.Some? then r.sortOrder.value else was[id].sortOrder)
       else
         && id == newId && (forall other :: other in was ==> was[other].name != r.name)
         && now[id] == Group(r.name, if r.description != "" then Some(r.description) else None, None,
                             if r.sortOrder.Some? then r.sortOrder.value else 0, time)
  }

  /** Row `m` of the first pass, between two tables of the trace. */
  ghost predicate RowNamed(trace: seq<Groups>, ids: seq<Id>, rows: seq<Row>, newIds: seq<Id>, time: int, m: nat)
    requires m + 1 < |trace| && m < |ids| && m < |rows| && m < |newIds|
  {
    if rows[m].name != "" then NameStep(trace[m], trace[m + 1], rows[m], newIds[m], time, ids[m])
    else trace[m + 1] == trace[m]
  }

  /** The first pass over the first `k` rows, with the table after each and the department of each. */
  ghost predicate FirstPass(trace: seq<Groups>, ids: seq<Id>, rows: seq<Row>, newIds: seq<Id>, time: int, k: nat)
    requires k <= |rows| == |newIds|
  {
    |trace| == k + 1 && |ids| == k && forall m: nat :: m < k ==> RowNamed(trace, ids, rows, newIds, time, m)
  }

  lemma FirstPassStep(trace: seq<Groups>, ids: seq<Id>, now: Groups, id: Id, rows: seq<Row>, newIds: seq<Id>, time: int,
                      k: nat)
    requires k < |rows| == |newIds| && FirstPass(trace, ids, rows, newIds, time, k)
    requires if Named(rows[k]) then NameStep(trace[k], now, rows[k], newIds[k], time, id) else now == trace[k]
    ensures FirstPass(trace + [now], ids + [id], rows, newIds, time, k + 1)
  {
    hide NameStep;
    var longer, all := trace + [now], ids + [id];
    forall m: nat | m < k + 1 ensures RowNamed(longer, all, rows, newIds, time, m) {
      if m < k { assert RowNamed(trace, ids, rows, newIds, time, m); }
    }
  }

  lemma FirstPassStart(groups: Groups, rows: seq<Row>, newIds: seq<Id>, time: int)
    requires |rows| == |newIds|
    ensures FirstPass([groups], [], rows, newIds, time, 0)
  {
  }

  /** The first pass leaves what the file does not mention. */
  lemma {:induction false} FirstPassUntouched(trace: seq<Groups>, ids: seq<Id>, rows: seq<Row>, newIds: seq<Id>,
                                              time: int, k: nat)
    requires k <= |rows| == |newIds| && k < |trace| && k <= |ids|
    requires forall m: nat :: m < k ==> RowNamed(trace, ids, rows, newIds, time, m)
    ensures Untouched(trace[0], trace[k], rows)
  {
    hide Untouched, NameStep, OneRow;
    if k == 0 {
      NothingTouched(trace[0], rows);
    } else {
      FirstPassUntouched(trace, ids, rows, newIds, time, k - 1);
      assert RowNamed(trace, ids, rows, newIds, time, k - 1);
      if Named(rows[k - 1]) {
        StepIsOneRow(trace[k - 1], trace[k], rows[k - 1], newIds[k - 1], time, ids[k - 1]);
        UntouchedKept(trace[0], trace[k - 1], trace[k], rows, k - 1, ids[k - 1]);
      }
    }
  }

  lemma NamesUntouched(trace: seq<Groups>, ids: seq<Id>, rows: seq<Row>, newIds: seq<Id>, time: int)
    requires |rows| == |newIds| && FirstPass(trace, ids, rows, newIds, time, |rows|)
    ensures |trace| == |rows| + 1 && Untouched(trace[0], trace[|rows|], rows)
  {
    hide Untouched, RowNamed;
    FirstPassUntouched(trace, ids, rows, newIds, time, |rows|);
  }

  lemma UntouchedTrans(a: Groups, b: Groups, c: Groups, rows: seq<Row>)
    requires Untouched(a, b, rows) && Untouched(b, c, rows)
    ensures Untouched(a, c, rows)
  {
  }

  lemma NothingTouched(groups: Groups, rows: seq<Row>)
    ensures Untouched(groups, groups, rows)
  {
  }

  lemma StepIsOneRow(was: Groups, now: Groups, r: Row, newId: Id, time: int, id: Id)
    requires NameStep(was, now, r, newId, time, id)
    ensures OneRow(was, now, id, r.name)
  {
  }

  /** No row after `k` and before `end` sets the parent of the same department again. */
  ghost predicate LastSay(rows: seq<Row>, k: nat, end: nat)
    requires end <= |rows|
  {
    k < end && forall j :: k < j < end ==> !(Hangs(rows[j]) && rows[j].name == rows[k].name)
  }

  /** A later row leaves the parent that another department got. */
  lemma HungKept(was: Groups, now: Groups, r: Row, other: Row, idByName: map<string, Id>)
    requires Index(was, idByName) && other.name in idByName && other.name != r.name && Hung(was, r, idByName)
    requires OneRow(was, now, idByName[other.name], other.name)
    ensures Hung(now, r, idByName)
  {
    var p := was[idByName[r.name]].parent.value;
    assert now[p].name == was[p].name;
  }

  lemma HangIsOneRow(was: Groups, now: Groups, r: Row, idByName: map<string, Id>, failed: bool)
    requires Index(was, idByName) && HangStep(was, now, r, idByName, failed)
    ensures failed ==> now == was
    ensures OneRow(was, now, idByName[r.name], r.name) && Index(now, idByName)
    ensures !failed ==> Hung(now, r, idByName)
  {
  }

  /** After the second pass each department hangs where its last row says, unless that row was refused. */
  lemma {:induction false} SecondPassHangs(trace: seq<Groups>, rows: seq<Row>, idByName: map<string, Id>,
                                           refused: seq<nat>, k: nat)
    requires k <= |rows| && k < |trace| && Index(trace[0], idByName)
    requires forall m: nat :: m < k ==> RowHung(trace, rows, idByName, refused, m)
    ensures Index(trace[k], idByName) && Untouched(trace[0], trace[k], rows)
    ensures forall m: nat :: m < k && Hangs(rows[m]) && LastSay(rows, m, k) && m + 1 !in refused ==>
              Hung(trace[k], rows[m], idByName)
  {
    hide Index, Untouched, Hung, OneRow, HangStep;
    if k == 0 {
      NothingTouched(trace[0], rows);
    } else {
      var n := k - 1;
      SecondPassHangs(trace, rows, idByName, refused, n);
      assert RowHung(trace, rows, idByName, refused, n);
      var was, now, r := trace[n], trace[k], rows[n];
      if Hangs(r) {
        assert r.name in idByName by { HangNamed(was, now, r, idByName, k in refused); }
        HangIsOneRow(was, now, r, idByName, k in refused);
        UntouchedKept(trace[0], was, now, rows, n, idByName[r.name]);
      }
      forall m: nat | m < k && Hangs(rows[m]) && LastSay(rows, m, k) && m + 1 !in refused
        ensures Hung(now, rows[m], idByName)
      {
        if m < n {
          assert LastSay(rows, m, n);
          if Hangs(r) { HungKept(was, now, rows[m], r, idByName); }
        }
      }
    }
  }

  lemma ParentsHung(trace: seq<Groups>, rows: seq<Row>, idByName: map<string, Id>, refused: seq<nat>)
    requires SecondPass(trace, rows, idByName, refused, |rows|) && Index(trace[0], idByName)
    ensures Untouched(trace[0], trace[|rows|], rows)
    ensures forall k: nat :: k < |rows| && Hangs(rows[k]) && LastSay(rows, k, |rows|) && k + 1 !in refused ==>
              Hung(trace[|rows|], rows[k], idByName)
  {
    hide RowHung, Index, Untouched, Hung, LastSay;
    SecondPassHangs(trace, rows, idByName, refused, |rows|);
  }

  lemma HangNamed(was: Groups, now: Groups, r: Row, idByName: map<string, Id>, failed: bool)
    requires HangStep(was, now, r, idByName, failed)
    ensures r.name in idByName
  {
  }

  class GroupsService {
    var groups: Groups
    var memberOf: map<Id, Option<Id>>  // users and their department

    ghost predicate Valid()
      reads this
    {
      && IsForest(groups)
      && forall u :: u in memberOf && memberOf[u].Some? ==> memberOf[u].value in groups
    }

    method NextSortOrder(parent: Option<Id>) returns (n: int)
      ensures IsNextSort(groups, parent, n)
    {
      var ids := ListIds(groups);
      var found := false;
      n := 0;
      ghost var best := "";
      for k := 0 to |ids|
        invariant !found ==> n == 0 && forall id :: id in ids[..k] ==> !IsChild(groups, id, parent)
        invariant found ==> IsChild(groups, best, parent) && groups[best].sortOrder == n - 1
        invariant forall id :: id in ids[..k] && IsChild(groups, id, parent) ==> groups[id].sortOrder < n
      {
        var id := ids[k];
        assert ids[..k + 1] == ids[..k] + [id];
        if groups[id].parent == parent && (!found || groups[id].sortOrder >= n) {
          found, n, best := true, groups[id].sortOrder + 1, id;
        }
      }
      assert ids[..|ids|] == ids;
      if found { assert IsChild(groups, best, parent); }
    }

    method AssertValidParent(parent: Id, self: Option<Id>) returns (e: Outcome)
      ensures e == ParentCheck(groups, parent, self)
    {
      if self == Some(parent) { return SelfParent; }
      if parent !in groups { return ParentMissing; }
      if self.Some? {
        var desc := DescendantGroupIds(groups, self.value);
        if parent in desc { return Cycle; }
      }
      return Accepted;
    }

    method Create(name: string, description: Option<string>, parent: Option<Id>, newId: Id, now: int)
      returns (e: Outcome)
      requires Valid() && newId !in groups
      modifies this`groups
      ensures Valid()
      ensures e == if Normal(parent).None? || Normal(parent).value in old(groups) then Accepted else ParentMissing
      ensures e != Accepted ==> groups == old(groups)
      ensures e == Accepted ==>
                exists n :: IsNextSort(old(groups), Normal(parent), n) &&
                            groups == old(groups)[newId := Group(name, description, Normal(parent), n, now)]
    {
      var target := Normal(parent);
      if target.Some? {
        e := AssertValidParent(target.value, None);
        if e != Accepted { return; }
      }
      var n := NextSortOrder(target);
      NewForest(groups, newId, Group(name, description, target, n, now));
      groups := groups[newId := Group(name, description, target, n, now)];
      return Accepted;
    }

    /** A given parent is accepted exactly when the tree stays a forest. */
    method Update(id: Id, name: Option<string>, description: Option<string>, parent: Option<Option<Id>>)
      returns (e: Outcome)
      requires Valid()
      modifies this`groups
      ensures Valid()
      ensures e != Accepted ==> groups == old(groups)
      ensures e == Accepted ==>
                && id in old(groups) && id in groups && groups == old(groups)[id := groups[id]]
                && groups[id].name == (if name.Some? then name.value else old(groups)[id].name)
                && groups[id].description == (if description.Some? then description else old(groups)[id].description)
                && groups[id].parent == (if parent.None? then old(groups)[id].parent
                                         else if parent.value == Some("") then None else parent.value)
                && groups[id].created == old(groups)[id].created
                && (if groups[id].parent == old(groups)[id].parent then groups[id].sortOrder == old(groups)[id].sortOrder
                    else IsNextSort(old(groups), groups[id].parent, groups[id].sortOrder))
      ensures id in old(groups) ==>
                (e == Accepted <==>
                 (parent.Some? && parent.value.Some? && parent.value.value != "" ==>
                    && parent.value.value in old(groups)
                    && IsForest(old(groups)[id := old(groups)[id].(parent := parent.value)])))
    {
      hide IsForest, ParentsOf, Under, IsNextSort;
      var sortOrder: Option<int> := None;
      if parent.Some? {
        var target := Normal(parent.value);
        if target.Some? {
          e := AssertValidParent(target.value, Some(id));
          if id in groups && target.value in groups {
            UnderSelf(ParentsOf(groups), id);
            ReparentForest(groups, id, target.value, groups[id].(parent := target));
          }
          if e != Accepted { return; }
        }
        if id !in groups { return NotFound; }
        if groups[id].parent != target {
          var n := NextSortOrder(target);
          sortOrder := Some(n);
        }
      }
      if id !in groups { return NotFound; }
      var g := groups[id];
      if name.Some? { g := g.(name := name.value); }
      if description.Some? { g := g.(description := description); }
      if parent.Some? { g := g.(parent := Normal(parent.value)); }
      if sortOrder.Some? { g := g.(sortOrder := sortOrder.value); }
      ghost var hung := groups[id := groups[id].(parent := g.parent)];
      ghost var before := groups;
      groups := groups[id := g];
      assert SameTree(hung, groups);
      if parent.None? {
        SameTreeForest(before, groups);
      } else if g.parent.None? {
        RootForest(before, id, g);
      } else {
        SameTreeForest(hung, groups);
      }
      return Accepted;
    }

    method Remove(id: Id) returns (e: Outcome, deleted: nat)
      requires Valid()
      modifies this
      ensures Valid()
      ensures id !in old(groups) ==> e == NotFound && groups == old(groups) && memberOf == old(memberOf)
      ensures id in old(groups) ==>
                && e == Accepted && deleted == |old(groups)| - |groups|
                && (forall k :: k in groups <==> k in old(groups) && !Under(ParentsOf(old(groups)), k, id))
                && (forall k :: k in groups ==> groups[k] == old(groups)[k])
                && memberOf.Keys == old(memberOf).Keys
                && (forall u :: u in memberOf ==>
                      memberOf[u] == if old(memberOf)[u].Some? && old(memberOf)[u].value !in groups then None
                                     else old(memberOf)[u])
    {
      if id !in groups { return NotFound, 0; }
      var descendants := DescendantGroupIds(groups, id);
      var ids := [id] + descendants;
      var gone := set d | d in ids;
      UnderSelf(ParentsOf(groups), id);
      forall d | d in gone ensures d in groups { RowUnder(d, id); }
      RemovedForest(groups, id, gone);
      DistinctCount(ids, gone);
      ghost var before := groups;
      groups := groups - gone;
      assert groups.Keys == before.Keys - gone;
      // `onDelete: SetNull` for the users of removed departments
      memberOf := map u | u in memberOf :: if memberOf[u].Some? && memberOf[u].value in gone then None else memberOf[u];
      return Accepted, |ids|;
    }

    lemma RowUnder(d: Id, id: Id)
      requires id in groups && Under(ParentsOf(groups), d, id)
      ensures d in groups
    {
      if d != id { UnderParent(ParentsOf(groups), d, id); }
    }

    /** The siblings in display order. */
    method ListSiblings(parent: Option<Id>) returns (ids: seq<Id>)
      ensures SiblingList(groups, parent, ids)
    {
      var rest := set id | id in groups && groups[id].parent == parent;
      ids := [];
      hide Before;
      while rest != {}
        invariant forall id :: id in rest ==> IsChild(groups, id, parent)
        invariant Distinct(ids)
        invariant forall k :: 0 <= k < |ids| ==> IsChild(groups, ids[k], parent) && ids[k] !in rest
        invariant forall id :: IsChild(groups, id, parent) ==> id in ids || id in rest
        invariant forall i, j :: 0 <= i < j < |ids| ==> Before(groups[ids[i]], groups[ids[j]])
        invariant forall i, id :: 0 <= i < |ids| && id in rest ==> Before(groups[ids[i]], groups[id])
        decreases rest
      {
        FirstExists(groups, rest);
        var id :| id in rest && forall other :: other in rest ==> Before(groups[id], groups[other]);
        ids := ids + [id];
        rest := rest - {id};
      }
    }

    /** The transaction that writes the new positions. */
    method Renumber(order: seq<Id>, ghost parent: Option<Id>)
      requires Valid() && Siblings(groups, parent, order)
      modifies this`groups
      ensures Valid() && Renumbered(old(groups), groups, order)
    {
      ghost var before := groups;
      for k := 0 to |order|
        invariant groups.Keys == before.Keys
        invariant forall m :: 0 <= m < k ==> groups[order[m]] == before[order[m]].(sortOrder := m)
        invariant forall x :: x in before && x !in order[..k] ==> groups[x] == before[x]
      {
        assert IsChild(before, order[k], parent);
        assert order[..k + 1] == order[..k] + [order[k]];
        groups := groups[order[k] := groups[order[k]].(sortOrder := k)];
      }
      assert order[..|order|] == order;
      RenumberedTree(before, groups, order);
      SameTreeForest(before, groups);
    }

    /** `list` is the display order around `id`, and the move changed it as it should. */
    ghost predicate Moved(before: Groups, id: Id, up: bool, list: seq<Id>, i: nat)
      requires id in before
      reads this
    {
      && SiblingList(before, before[id].parent, list) && i < |list| && list[i] == id
      && var j := if up then i - 1 else i + 1;
         if 0 <= j < |list| then
           Renumbered(before, groups, Swapped(list, i, j)) && SiblingList(groups, before[id].parent, Swapped(list, i, j))
         else groups == before
    }

    /** Moves a department one place up or down among its siblings. */
    method Reorder(id: Id, up: bool) returns (e: Outcome)
      requires Valid()
      modifies this`groups
      ensures Valid()
      ensures e == if id in old(groups) then Accepted else NotFound
      ensures id !in old(groups) ==> groups == old(groups)
      ensures id in old(groups) ==> exists list: seq<Id>, i: nat :: Moved(old(groups), id, up, list, i)
    {
      if id !in groups { return NotFound; }
      var parent := groups[id].parent;
      var siblings := ListSiblings(parent);
      assert IsChild(groups, id, parent);
      var i :| 0 <= i < |siblings| && siblings[i] == id;
      var j := if up then i - 1 else i + 1;
      if j < 0 || j >= |siblings| {
        assert Moved(old(groups), id, up, siblings, i);
        return Accepted;
      }
      var order := Swapped(siblings, i, j);
      SwapKeeps(siblings, i, j);
      assert Siblings(groups, parent, order);
      ghost var before := groups;
      Renumber(order, parent);
      RenumberedList(before, groups, parent, order);
      assert Moved(old(groups), id, up, siblings, i);
      return Accepted;
    }

    // ----- import -----

    /** `findFirst({ where: { name } })`: any department of that name. */
    method FindByName(name: string) returns (found: Option<Id>)
      ensures found.Some? ==> found.value in groups && groups[found.value].name == name
      ensures found.None? ==> forall id :: id in groups ==> groups[id].name != name
    {
      if id :| id in groups && groups[id].name == name {
        return Some(id);
      }
      return None;
    }

    /** The first pass over one row: the department is created or its own columns are updated. */
    method ImportRow(r: Row, newId: Id, now: int) returns (id: Id, created: bool)
      requires Valid() && Named(r) && newId !in groups
      modifies this`groups
      ensures Valid() && NameStep(old(groups), groups, r, newId, now, id) && (created <==> id !in old(groups))
    {
      var found := FindByName(r.name);
      ghost var before := groups;
      if found.Some? {
        id, created := found.value, false;
        var g := groups[id];
        if r.description != "" { g := g.(description := Some(r.description)); }
        if r.sortOrder.Some? { g := g.(sortOrder := r.sortOrder.value); }
        groups := groups[id := g];
        SameTreeForest(before, groups);
      } else {
        id, created := newId, true;
        var g := Group(r.name, if r.description != "" then Some(r.description) else None, None,
                       if r.sortOrder.Some? then r.sortOrder.value else 0, now);
        NewForest(groups, id, g);
        groups := groups[id := g];
      }
    }

    /** The second pass over one row: its parent is set, or the reason why not is reported. */
    method HangRow(r: Row, idByName: map<string, Id>) returns (failed: bool)
      requires Valid() && Hangs(r) && Index(groups, idByName) && r.name in idByName
      modifies this`groups
      ensures Valid() && Index(groups, idByName) && groups.Keys == old(groups).Keys
      ensures failed ==> groups == old(groups)
      ensures !failed ==> OneRow(old(groups), groups, idByName[r.name], r.name) && Hung(groups, r, idByName)
      ensures HangStep(old(groups), groups, r, idByName, failed)
    {
      var groupId := idByName[r.name];
      if r.parentName == r.name { return true; }
      var parent := if r.parentName in idByName then Some(idByName[r.parentName]) else None;
      if parent.None? {
        parent := FindByName(r.parentName);
      }
      assert FoundParent(groups, idByName, r.parentName, parent);
      if parent.None? || parent.value == "" { return true; }
      var check := AssertValidParent(parent.value, Some(groupId));
      assert check != Accepted <==> Unfit(groups, parent, groupId) by { UnderSelf(ParentsOf(groups), groupId); }
      if check != Accepted { return true; }
      ReparentForest(groups, groupId, parent.value, groups[groupId].(parent := parent));
      ghost var was := groups;
      groups := groups[groupId := groups[groupId].(parent := parent)];
      IndexKept(was, groups, groupId, r.name, idByName);
      return false;
    }

    /** The first pass: every named row's department exists afterwards. */
    method ImportNames(rows: seq<Row>, newIds: seq<Id>, now: int)
      returns (created: nat, updated: nat, errors: seq<nat>, idByName: map<string, Id>,
               ghost trace: seq<Groups>, ghost ids: seq<Id>)
      requires Valid() && |newIds| == |rows| && Distinct(newIds)
      requires forall k :: 0 <= k < |newIds| ==> newIds[k] !in groups
      modifies this`groups
      ensures Valid() && Index(groups, idByName) && Untouched(old(groups), groups, rows)
      ensures created + updated == NamedCount(rows) && |groups| == |old(groups)| + created
      ensures Covered(rows, |rows|, errors, idByName) && errors == Unnamed(rows)
      ensures FirstPass(trace, ids, rows, newIds, now, |rows|) && trace[0] == old(groups) && trace[|rows|] == groups
    {
      ghost var before := groups;
      trace, ids := [groups], [];
      created, updated, errors, idByName := 0, 0, [], map[];
      assert Index(groups, idByName) && Covered(rows, 0, errors, idByName);
      FirstPassStart(groups, rows, newIds, now);
      hide IsForest, Index, Untouched, OneRow, Covered, NameStep, FirstPass;
      for k := 0 to |rows|
        invariant |trace| == k + 1 && trace[0] == before && trace[k] == groups
        invariant FirstPass(trace, ids, rows, newIds, now, k) && errors == Unnamed(rows[..k])
        invariant Valid() && Index(groups, idByName)
        invariant created + updated == NamedCount(rows[..k]) && |groups| == |before| + created
        invariant Covered(rows, k, errors, idByName)
        invariant forall m :: k <= m < |rows| ==> newIds[m] !in groups
      {
        var r := rows[k];
        assert rows[..k + 1][..k] == rows[..k];
        if !Named(r) {
          CoveredStep(rows, k, errors, idByName, "");
          FirstPassStep(trace, ids, groups, "", rows, newIds, now, k);
          trace, ids := trace + [groups], ids + [""];
          errors := errors + [k + 1];
        } else {
          ghost var was := groups;
          var id, isNew := ImportRow(r, newIds[k], now);
          StepIsOneRow(was, groups, r, newIds[k], now, id);
          FirstPassStep(trace, ids, groups, id, rows, newIds, now, k);
          trace, ids := trace + [groups], ids + [id];
          IndexKept(was, groups, id, r.name, idByName);
          RowCount(was, groups, id, r.name);
          CoveredStep(rows, k, errors, idByName, id);
          if isNew { created := created + 1; } else { updated := updated + 1; }
          idByName := idByName[r.name := id];
        }
      }
      assert rows[..|rows|] == rows;
      NamesUntouched(trace, ids, rows, newIds, now);
    }

    /**
     The second pass: each row is refused or hung as `HangStep` says, and each department hangs in the end where
     its last row says, unless that row is refused.
     */
    method ImportParents(rows: seq<Row>, idByName: map<string, Id>, errors: seq<nat>)
      returns (errors': seq<nat>, ghost trace: seq<Groups>)
      requires Valid() && Index(groups, idByName) && forall k :: 0 <= k < |rows| && Named(rows[k]) ==> rows[k].name in idByName
      modifies this`groups
      ensures Valid() && Index(groups, idByName) && groups.Keys == old(groups).Keys && Untouched(old(groups), groups, rows)
      ensures errors <= errors' && SecondPass(trace, rows, idByName, errors'[|errors|..], |rows|)
      ensures trace[0] == old(groups) && trace[|rows|] == groups
      ensures forall k :: 0 <= k < |rows| && Hangs(rows[k]) && LastSay(rows, k, |rows|) && k + 1 !in errors' ==>
                Hung(groups, rows[k], idByName)
    {
      ghost var before := groups;
      ghost var refused: seq<nat> := [];
      errors', trace := errors, [groups];
      SecondPassStart(groups, rows, idByName);
      hide IsForest, Index, Untouched, Hung, OneRow, HangStep, SecondPass;
      for k := 0 to |rows|
        invariant Valid() && Index(groups, idByName) && groups.Keys == before.Keys
        invariant |trace| == k + 1 && trace[0] == before && trace[k] == groups
        invariant SecondPass(trace, rows, idByName, refused, k) && errors' == errors + refused
      {
        var failed := false;
        if Hangs(rows[k]) { failed := HangRow(rows[k], idByName); }
        SecondPassStep(trace, groups, rows, idByName, refused, k, failed);
        trace := trace + [groups];
        if failed { errors', refused := errors' + [k + 1], refused + [k + 1]; }
      }
      assert errors'[|errors|..] == refused;
      ParentsHung(trace, rows, idByName, refused);
    }

    /**
     The whole import: the two passes row by row, and what they leave. It reports the rows without a name, and
     of the others exactly those that name themselves or an unfit parent.
     */
    method ImportRows(rows: seq<Row>, newIds: seq<Id>, now: int)
      returns (created: nat, updated: nat, errors: seq<nat>, idByName: map<string, Id>,
               ghost named: seq<Groups>, ghost ids: seq<Id>, ghost hung: seq<Groups>)
      requires Valid() && |newIds| == |rows| && Distinct(newIds)
      requires forall k :: 0 <= k < |newIds| ==> newIds[k] !in groups
      modifies this`groups
      ensures Valid() && Index(groups, idByName) && Untouched(old(groups), groups, rows)
      ensures created + updated == NamedCount(rows) && |groups| == |old(groups)| + created
      ensures FirstPass(named, ids, rows, newIds, now, |rows|) && named[0] == old(groups)
      ensures Unnamed(rows) <= errors && SecondPass(hung, rows, idByName, errors[|Unnamed(rows)|..], |rows|)
      ensures hung[0] == named[|rows|] && hung[|rows|] == groups
      ensures Covered(rows, |rows|, errors, idByName)
      ensures forall k :: 0 <= k < |rows| && Hangs(rows[k]) && LastSay(rows, k, |rows|) && k + 1 !in errors ==>
                Hung(groups, rows[k], idByName)
    {
      hide IsForest, Index, Untouched, Hung, OneRow, FirstPass, SecondPass;
      created, updated, errors, idByName, named, ids := ImportNames(rows, newIds, now);
      ghost var middle := groups;
      var all;
      all, hung := ImportParents(rows, idByName, errors);
      UntouchedTrans(old(groups), middle, groups, rows);
      assert |groups| == |groups.Keys| && |middle| == |middle.Keys|;
      forall k | 0 <= k < |rows| && !Named(rows[k]) ensures k + 1 in all {
        assert k + 1 in errors;
      }
      errors := all;
    }
  }

  lemma {:induction false} FirstExists(groups: Groups, s: set<Id>)
    requires s != {} && s <= groups.Keys
    ensures exists id :: id in s && forall other :: other in s ==> Before(groups[id], groups[other])
  {
    var x :| x in s;
    if s != {x} {
      FirstExists(groups, s - {x});
      var id :| id in s - {x} && forall other :: other in s - {x} ==> Before(groups[id], groups[other]);
      var first := if Before(groups[x], groups[id]) then x else id;
      assert first in s && forall other :: other in s ==> Before(groups[first], groups[other]);
    }
  }

  lemma SwapKeeps(ids: seq<Id>, i: nat, j: nat)
    requires i < |ids| && j < |ids| && i != j && Distinct(ids)
    ensures Distinct(Swapped(ids, i, j)) && forall x :: x in Swapped(ids, i, j) <==> x in ids
  {
    var s := Swapped(ids, i, j);
    forall x | x in ids ensures x in s {
      var k :| 0 <= k < |ids| && ids[k] == x;
      assert s[if k == i then j else if k == j then i else k] == x;
    }
  }

  lemma {:induction false} DistinctCount(ids: seq<Id>, s: set<Id>)
    requires Distinct(ids) && forall x :: x in s <==> x in ids
    ensures |s| == |ids|
  {
    if ids == [] {
      assert s == {};
    } else {
      var last := ids[|ids| - 1];
      assert ids == ids[..|ids| - 1] + [last];
      DistinctCount(ids[..|ids| - 1], s - {last});
    }
  }
}
