/**
 Parent relations: every department has at most one parent. Walking up, what lies under a department,
 and when hanging a department under another one closes a cycle.
 */
module Forest {
  import opened Values

  type Id = string
  type Parents = map<Id, Id>

  /** The `n`-th ancestor of `x`; the 0th is `x` itself. */
  function Up(p: Parents, x: Id, n: nat): Option<Id>
    decreases n
  {
    if n == 0 then Some(x) else if x in p then Up(p, p[x], n - 1) else None
  }

  /** `x` is `a` or lies below it. */
  ghost predicate Under(p: Parents, x: Id, a: Id) {
    exists n: nat :: Up(p, x, n) == Some(a)
  }

  ghost predicate Acyclic(p: Parents) {
    forall x: Id, n: nat :: n > 0 ==> Up(p, x, n) != Some(x)
  }

  lemma {:induction false} UpAdd(p: Parents, x: Id, m: nat, n: nat)
    requires Up(p, x, m).Some?
    ensures Up(p, x, m + n) == Up(p, Up(p, x, m).value, n)
    decreases m
  {
    if m > 0 { UpAdd(p, p[x], m - 1, n); }
  }

  lemma UnderSelf(p: Parents, x: Id)
    ensures Under(p, x, x)
  {
    assert Up(p, x, 0) == Some(x);
  }

  lemma UnderStep(p: Parents, x: Id, a: Id)
    requires x in p && Under(p, p[x], a)
    ensures Under(p, x, a)
  {
    var n: nat :| Up(p, p[x], n) == Some(a);
    assert Up(p, x, n + 1) == Some(a);
  }

  lemma UnderParent(p: Parents, x: Id, a: Id)
    requires Under(p, x, a) && x != a
    ensures x in p && Under(p, p[x], a)
  {
    var n: nat :| Up(p, x, n) == Some(a);
    assert Up(p, p[x], n - 1) == Some(a);
  }

  // ----- hanging one department under another -----

  /** A walk is the same after `self` got a new parent, up to where it first meets `self`. */
  lemma {:induction false} WalkUntil(p: Parents, self: Id, parent: Id, x: Id, n: nat) returns (m: nat)
    ensures m <= n && Up(p, x, m) == Up(p[self := parent], x, m)
    ensures m == n || Up(p, x, m) == Some(self)
    decreases n
  {
    if n == 0 || x == self {
      m := 0;
    } else if x in p {
      m := WalkUntil(p, self, parent, p[x], n - 1);
      m := m + 1;
    } else {
      assert Up(p, x, n) == None && Up(p[self := parent], x, n) == None;
      m := n;
    }
  }

  /** Going round a cycle from any of its members leads back to it. */
  lemma CycleRotates(p: Parents, x: Id, n: nat, m: nat, y: Id)
    requires Up(p, x, n) == Some(x) && Up(p, x, m) == Some(y)
    ensures Up(p, y, n) == Some(y)
  {
    UpAdd(p, x, m, n);
    UpAdd(p, x, n, m);
  }

  /** A new parent keeps the relation acyclic exactly when it is not `self` and does not lie below `self`. */
  lemma ReparentAcyclic(p: Parents, self: Id, parent: Id)
    requires Acyclic(p)
    ensures Acyclic(p[self := parent]) <==> !Under(p, parent, self)
  {
    var q := p[self := parent];
    if Under(p, parent, self) {
      var n: nat :| Up(p, parent, n) == Some(self);
      var m := WalkUntil(p, self, parent, parent, n);
      assert Up(q, parent, m) == Some(self);
      assert Up(q, self, m + 1) == Some(self);
    } else {
      forall x: Id, n: nat | n > 0 ensures Up(q, x, n) != Some(x) {
        if Up(q, x, n) == Some(x) {
          CycleMeetsSelf(p, self, parent, x, n);
        }
      }
    }
  }

  lemma CycleMeetsSelf(p: Parents, self: Id, parent: Id, x: Id, n: nat)
    requires Acyclic(p) && n > 0 && Up(p[self := parent], x, n) == Some(x)
    ensures Under(p, parent, self)
  {
    var q := p[self := parent];
    var m := WalkUntil(p, self, parent, x, n);
    assert Up(q, x, m) == Some(self);
    CycleRotates(q, x, n, m, self);
    assert Up(q, parent, n - 1) == Some(self);
    var k := WalkUntil(p, self, parent, parent, n - 1);
    assert Up(p, parent, k) == Some(self);
  }

  /** Making `self` a root, or removing departments, closes no cycle. */
  lemma {:induction false} FewerParentsWalk(p: Parents, q: Parents, x: Id, n: nat)
    requires forall y :: y in q ==> y in p && p[y] == q[y]
    requires Up(q, x, n).Some?
    ensures Up(p, x, n) == Up(q, x, n)
    decreases n
  {
    if n > 0 { FewerParentsWalk(p, q, q[x], n - 1); }
  }

  lemma FewerParentsAcyclic(p: Parents, q: Parents)
    requires Acyclic(p) && forall y :: y in q ==> y in p && p[y] == q[y]
    ensures Acyclic(q)
  {
    forall x: Id, n: nat | n > 0 ensures Up(q, x, n) != Some(x) {
      if Up(q, x, n) == Some(x) { FewerParentsWalk(p, q, x, n); }
    }
  }

  /** A department nobody hangs under may be hung anywhere else. */
  lemma NewLeafAcyclic(p: Parents, leaf: Id, parent: Id)
    requires Acyclic(p) && leaf !in p && leaf != parent && forall y :: y in p ==> p[y] != leaf
    ensures Acyclic(p[leaf := parent])
  {
    if Under(p, parent, leaf) {
      var n: nat :| Up(p, parent, n) == Some(leaf);
      NobodyBelow(p, leaf, parent, n);
    }
    ReparentAcyclic(p, leaf, parent);
  }

  lemma {:induction false} NobodyBelow(p: Parents, leaf: Id, x: Id, n: nat)
    requires x != leaf && forall y :: y in p ==> p[y] != leaf
    ensures Up(p, x, n) != Some(leaf)
    decreases n
  {
    if n > 0 && x in p { NobodyBelow(p, leaf, p[x], n - 1); }
  }

  // ----- the downward search -----

  /** A set that contains `root` and every child of its members contains all that lies under `root`. */
  lemma {:induction false} ClosedHoldsUnder(p: Parents, root: Id, s: set<Id>, x: Id, n: nat)
    requires root in s && (forall y :: y in p && p[y] in s ==> y in s)
    requires Up(p, x, n) == Some(root)
    ensures x in s
    decreases n
  {
    if n > 0 { ClosedHoldsUnder(p, root, s, p[x], n - 1); }
  }

  // ----- the upward walk -----

  /** Once a walk comes back to where it was, it stays among the departments it has seen. */
  lemma {:induction false} WalkRepeats(p: Parents, x: Id, m: nat, j: nat, n: nat) returns (k: nat)
    requires j < m && Up(p, x, m).Some? && Up(p, x, m) == Up(p, x, j)
    ensures k < m && Up(p, x, n) == Up(p, x, k)
    decreases n
  {
    if n < m {
      k := n;
    } else {
      UpAdd(p, x, m, n - m);
      UpAdd(p, x, j, n - m);
      k := WalkRepeats(p, x, m, j, j + (n - m));
    }
  }

  lemma {:induction false} WalkEnds(p: Parents, x: Id, m: nat, n: nat)
    requires Up(p, x, m).None? && m <= n
    ensures Up(p, x, n).None?
    decreases m
  {
    if m > 0 && x in p { WalkEnds(p, p[x], m - 1, n - 1); }
  }
}
