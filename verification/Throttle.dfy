/** The lock on repeated failed logins: a timed state machine for each key of login id and address. */
module Throttle {
  import opened Values

  /** Times are milliseconds. */
  datatype Policy = Policy(maxFailed: nat, window: nat, lockout: nat)

  datatype Row = Row(attempts: nat, firstFailedAt: int, lockedUntil: Option<int>)

  /** A login: when the lock is looked at, when a failure would be recorded, and whether the password is right. */
  datatype Login = Login(at: int, recorded: int, ok: bool)

  datatype Outcome = Locked | Rejected | LoggedIn

  predicate IsLocked(row: Option<Row>, now: int) {
    row.Some? && row.value.lockedUntil.Some? && row.value.lockedUntil.value > now
  }

  function LockFor(p: Policy, attempts: nat, now: int): Option<int> {
    if attempts >= p.maxFailed then Some(now + p.lockout) else None
  }

  predicate InWindow(p: Policy, row: Option<Row>, now: int) {
    row.Some? && now - row.value.firstFailedAt <= p.window
  }

  function Failed(p: Policy, row: Option<Row>, now: int): Row {
    if InWindow(p, row, now)
    then Row(row.value.attempts + 1, row.value.firstFailedAt, LockFor(p, row.value.attempts + 1, now))
    else Row(1, now, LockFor(p, 1, now))
  }

  function OutcomeOf(row: Option<Row>, a: Login): Outcome {
    if IsLocked(row, a.at) then Locked else if a.ok then LoggedIn else Rejected
  }

  function Step(p: Policy, row: Option<Row>, a: Login): Option<Row> {
    match OutcomeOf(row, a)
    case Locked => row
    case LoggedIn => None
    case Rejected => Some(Failed(p, row, a.recorded))
  }

  /** One attempt after the other. */
  predicate InOrder(run: seq<Login>, from: int) {
    run == [] || (from <= run[0].at <= run[0].recorded && InOrder(run[1..], run[0].recorded))
  }

  predicate NoLogin(p: Policy, row: Option<Row>, run: seq<Login>)
    decreases |run|
  {
    run == [] || (OutcomeOf(row, run[0]) != LoggedIn && NoLogin(p, Step(p, row, run[0]), run[1..]))
  }

  /** A failed password check: when it was made and recorded, and the row it left. */
  datatype Failure = Failure(checked: int, at: int, row: Row)

  function Failures(p: Policy, row: Option<Row>, run: seq<Login>): seq<Failure>
    decreases |run|
  {
    if run == [] then []
    else
      var next := Step(p, row, run[0]);
      (if OutcomeOf(row, run[0]) == Rejected then [Failure(run[0].at, run[0].recorded, next.value)] else [])
      + Failures(p, next, run[1..])
  }

  // ----- how failures follow each other -----

  /** No check before the lock has run out; one more in the same counting window, or the first of a new one. */
  predicate Follows(p: Policy, f: Failure, g: Failure) {
    && f.at <= g.checked <= g.at
    && (f.row.lockedUntil.Some? ==> f.row.lockedUntil.value <= g.checked)
    && g.row == Failed(p, Some(f.row), g.at)
  }

  predicate Begins(p: Policy, f: Failure) {
    f.checked <= f.at && f.row == Row(1, f.at, LockFor(p, 1, f.at))
  }

  predicate Linked(p: Policy, fs: seq<Failure>) {
    (fs != [] ==> Begins(p, fs[0])) && forall k :: 0 < k < |fs| ==> Follows(p, fs[k - 1], fs[k])
  }

  predicate LinkedTo(p: Policy, f: Failure, fs: seq<Failure>) {
    && (fs != [] ==> Follows(p, f, fs[0]))
    && forall k :: 0 < k < |fs| ==> Follows(p, fs[k - 1], fs[k])
  }

  lemma {:induction false} FailuresFollow(p: Policy, f: Failure, run: seq<Login>, from: int)
    requires f.at <= from && InOrder(run, from) && NoLogin(p, Some(f.row), run)
    ensures LinkedTo(p, f, Failures(p, Some(f.row), run))
    decreases |run|
  {
    if run != [] {
      var a, rest := run[0], run[1..];
      if OutcomeOf(Some(f.row), a) == Rejected {
        var g := Failure(a.at, a.recorded, Failed(p, Some(f.row), a.recorded));
        FailuresFollow(p, g, rest, a.recorded);
        LinkedCons(p, f, g, Failures(p, Some(g.row), rest));
      } else {
        FailuresFollow(p, f, rest, a.recorded);
      }
    }
  }

  lemma LinkedCons(p: Policy, f: Failure, g: Failure, fs: seq<Failure>)
    requires Follows(p, f, g) && LinkedTo(p, g, fs)
    ensures LinkedTo(p, f, [g] + fs)
  {
    hide Follows;
  }

  /** In a run without a login the failed checks follow each other like this, from the first on. */
  lemma {:induction false} RunLinked(p: Policy, run: seq<Login>, from: int)
    requires InOrder(run, from) && NoLogin(p, None, run)
    ensures Linked(p, Failures(p, None, run))
  {
    if run != [] {
      var a, rest := run[0], run[1..];
      var f := Failure(a.at, a.recorded, Failed(p, None, a.recorded));
      FailuresFollow(p, f, rest, a.recorded);
      LinkedStart(p, f, Failures(p, Some(f.row), rest));
    }
  }

  lemma LinkedStart(p: Policy, f: Failure, fs: seq<Failure>)
    requires Begins(p, f) && LinkedTo(p, f, fs)
    ensures Linked(p, [f] + fs)
  {
    hide Follows, Begins;
  }

  // ----- how many -----

  /** The most failed checks one counting window can hold. */
  function Bound(p: Policy): nat
    requires p.lockout > 0
  {
    p.maxFailed + p.window / p.lockout
  }

  /** From the limit on, each further failure has waited out one lock. */
  predicate Waited(p: Policy, f: Failure) {
    && f.row.attempts >= 1
    && f.row.firstFailedAt <= f.at <= f.row.firstFailedAt + p.window
    && f.row.lockedUntil == LockFor(p, f.row.attempts, f.at)
    && (f.row.attempts >= p.maxFailed ==> f.row.firstFailedAt + (f.row.attempts - p.maxFailed) * p.lockout <= f.at)
  }

  lemma WaitedNext(p: Policy, f: Failure, g: Failure)
    requires p.maxFailed > 0 && Waited(p, f) && Follows(p, f, g)
    ensures Waited(p, g)
  {
    if f.row.attempts >= p.maxFailed {
      var n := f.row.attempts - p.maxFailed;
      assert (n + 1) * p.lockout == n * p.lockout + p.lockout;
    }
  }

  lemma {:induction false} AllWaited(p: Policy, fs: seq<Failure>, k: nat)
    requires p.maxFailed > 0 && Linked(p, fs) && k < |fs|
    ensures Waited(p, fs[k])
  {
    hide Follows, Waited;
    if k == 0 {
      BeginsWaited(p, fs[0]);
    } else {
      AllWaited(p, fs, k - 1);
      WaitedNext(p, fs[k - 1], fs[k]);
    }
  }

  lemma BeginsWaited(p: Policy, f: Failure)
    requires p.maxFailed > 0 && Begins(p, f)
    ensures Waited(p, f)
  {
    assert (1 - p.maxFailed) * p.lockout <= 0;
  }

  lemma WithinBound(p: Policy, f: Failure)
    requires p.lockout > 0 && Waited(p, f)
    ensures f.row.attempts <= Bound(p)
  {
    if f.row.attempts > p.maxFailed {
      var n := f.row.attempts - p.maxFailed;
      assert n * p.lockout <= p.window;
      DivBound(n, p.lockout, p.window);
    }
  }

  lemma DivBound(n: nat, d: nat, w: nat)
    requires d > 0 && n * d <= w
    ensures n <= w / d
  {
    assert w == w / d * d + w % d;
    assert (w / d + 1) * d == w / d * d + d;
    TimesOrder(n, w / d + 1, d);
  }

  lemma TimesOrder(a: int, b: int, d: nat)
    ensures a * d < b * d ==> a < b
  {
    if a >= b { assert (a - b) * d >= 0; }
  }

  /** Failures are counted together exactly while they fall into the window of the first of them. */
  lemma {:induction false} Counted(p: Policy, fs: seq<Failure>, i: nat, j: nat)
    requires p.maxFailed > 0 && Linked(p, fs) && i <= j < |fs|
    ensures fs[i].at <= fs[j].at && fs[i].row.firstFailedAt <= fs[j].row.firstFailedAt
    ensures fs[i].row.firstFailedAt == fs[j].row.firstFailedAt ==> fs[j].row.attempts == fs[i].row.attempts + (j - i)
    decreases j
  {
    if i < j {
      Counted(p, fs, i, j - 1);
      AllWaited(p, fs, j - 1);
      assert Follows(p, fs[j - 1], fs[j]);
    }
  }

  /** In a run without a login, one counting window holds at most `maxFailed + window / lockout` failed checks. */
  lemma WindowBound(p: Policy, run: seq<Login>, from: int, i: nat, j: nat)
    requires p.maxFailed > 0 && p.lockout > 0 && InOrder(run, from) && NoLogin(p, None, run)
    requires i <= j < |Failures(p, None, run)|
    requires Failures(p, None, run)[i].row.firstFailedAt == Failures(p, None, run)[j].row.firstFailedAt
    ensures j - i + 1 <= Bound(p)
  {
    hide Linked, Waited, Bound, InOrder, NoLogin;
    var fs := Failures(p, None, run);
    RunLinked(p, run, from);
    Counted(p, fs, i, j);
    AllWaited(p, fs, i);
    AllWaited(p, fs, j);
    WithinBound(p, fs[j]);
    assert fs[i].row.attempts >= 1 by { AttemptsCount(p, fs[i]); }
  }

  lemma AttemptsCount(p: Policy, f: Failure)
    requires Waited(p, f)
    ensures f.row.attempts >= 1
  {
  }

  // ----- the bound is reached -----

  /** When the `i`-th of these tries is made: up to the limit at once, and then whenever the lock has run out. */
  function TryAt(p: Policy, i: nat): nat {
    if i < p.maxFailed then 0 else (i - p.maxFailed + 1) * p.lockout
  }

  /** The wrong tries from the `i`-th to the `n`-th. */
  function Tries(p: Policy, i: nat, n: nat): seq<Login>
    decreases n - i
  {
    if i >= n then [] else [Login(TryAt(p, i), TryAt(p, i), false)] + Tries(p, i + 1, n)
  }

  /** What they leave: the row before the `i`-th. */
  function RowAt(p: Policy, i: nat): Option<Row> {
    if i == 0 then None else Some(Row(i, 0, LockFor(p, i, TryAt(p, i - 1))))
  }

  lemma TimesFits(m: nat, d: nat, w: nat)
    requires d > 0 && m <= w / d
    ensures m * d <= w
  {
    assert w == w / d * d + w % d;
    assert (w / d - m) * d >= 0;
    assert w / d * d == m * d + (w / d - m) * d;
  }

  lemma TryInWindow(p: Policy, i: nat)
    requires p.maxFailed > 0 && p.lockout > 0 && i < Bound(p)
    ensures TryAt(p, i) <= p.window
    ensures i > 0 ==> TryAt(p, i) == TryAt(p, i - 1) + if i < p.maxFailed then 0 else p.lockout
  {
    if i >= p.maxFailed {
      var m := i - p.maxFailed + 1;
      TimesFits(m, p.lockout, p.window);
      assert m * p.lockout == (m - 1) * p.lockout + p.lockout;
    }
  }

  lemma TryFails(p: Policy, i: nat)
    requires p.maxFailed > 0 && p.lockout > 0 && i < Bound(p)
    ensures var a := Login(TryAt(p, i), TryAt(p, i), false);
            OutcomeOf(RowAt(p, i), a) == Rejected && Step(p, RowAt(p, i), a) == RowAt(p, i + 1)
  {
    TryInWindow(p, i);
    hide TryAt, Bound;
    assert i == 0 ==> TryAt(p, i) == 0 by { FirstTry(p); }
  }

  lemma FirstTry(p: Policy)
    requires p.maxFailed > 0
    ensures TryAt(p, 0) == 0
  {
  }

  lemma {:induction false} TriesFail(p: Policy, i: nat, n: nat, from: int)
    requires p.maxFailed > 0 && p.lockout > 0 && i <= n <= Bound(p) && (i < n ==> from <= TryAt(p, i))
    ensures var run := Tries(p, i, n);
      && InOrder(run, from) && NoLogin(p, RowAt(p, i), run) && |Failures(p, RowAt(p, i), run)| == n - i
      && forall f :: f in Failures(p, RowAt(p, i), run) ==> f.row.firstFailedAt == 0
    decreases n - i
  {
    if i < n {
      TryFails(p, i);
      if i + 1 < n { TryInWindow(p, i + 1); }
      assert RowAt(p, i + 1).value.firstFailedAt == 0;
      hide TryAt, Bound, RowAt, OutcomeOf, Step;
      TriesFail(p, i + 1, n, TryAt(p, i));
      assert Tries(p, i, n)[1..] == Tries(p, i + 1, n);
    }
  }

  /** As many failed checks as one counting window may hold, all in one: for no policy does a smaller bound hold. */
  lemma WindowBoundReached(p: Policy)
    requires p.maxFailed > 0 && p.lockout > 0
    ensures var run := Tries(p, 0, Bound(p)); var fs := Failures(p, None, run);
      && InOrder(run, 0) && NoLogin(p, None, run)
      && |fs| == Bound(p) && forall f :: f in fs ==> f.row.firstFailedAt == 0
  {
    TriesFail(p, 0, Bound(p), 0);
  }

  /** Where the next counting window begins. */
  lemma {:induction false} NextWindow(p: Policy, fs: seq<Failure>, i: nat, j: nat) returns (n: nat)
    requires p.maxFailed > 0 && p.lockout > 0 && Linked(p, fs) && i < j < |fs|
    requires fs[i].row.firstFailedAt != fs[j].row.firstFailedAt
    ensures i < n <= j && n - i <= Bound(p)
    ensures fs[n].row == Row(1, fs[n].at, LockFor(p, 1, fs[n].at)) && fs[n].at > fs[i].row.firstFailedAt + p.window
  {
    hide Bound, Waited;
    n := i + 1;
    while fs[n].row.firstFailedAt == fs[i].row.firstFailedAt
      invariant i < n <= j
      invariant fs[n - 1].row.firstFailedAt == fs[i].row.firstFailedAt
      decreases j - n
    {
      n := n + 1;
    }
    assert Follows(p, fs[n - 1], fs[n]);
    Counted(p, fs, i, n - 1);
    AllWaited(p, fs, i);
    AttemptsCount(p, fs[i]);
    AllWaited(p, fs, n - 1);
    WithinBound(p, fs[n - 1]);
  }

  /** In any period as long as the window, there are at most twice as many failed checks. */
  lemma PeriodBound(p: Policy, run: seq<Login>, from: int, i: nat, j: nat)
    requires p.maxFailed > 0 && p.lockout > 0 && InOrder(run, from) && NoLogin(p, None, run)
    requires i <= j < |Failures(p, None, run)|
    requires Failures(p, None, run)[j].at - Failures(p, None, run)[i].at <= p.window
    ensures j - i + 1 <= 2 * Bound(p)
  {
    hide Linked, Waited, Bound, InOrder, NoLogin, Failures;
    var fs := Failures(p, None, run);
    RunLinked(p, run, from);
    if fs[i].row.firstFailedAt == fs[j].row.firstFailedAt {
      WindowBound(p, run, from, i, j);
    } else {
      var n := NextWindow(p, fs, i, j);
      Counted(p, fs, i, n);
      if fs[n].row.firstFailedAt != fs[j].row.firstFailedAt {
        var m := NextWindow(p, fs, n, j);
        Counted(p, fs, m, j);
      } else {
        WindowBound(p, run, from, n, j);
      }
    }
  }

  /**
   No password is checked while a key is locked: over a whole run, a failed check leaves a lock only if every
   later failed check comes after that lock has run out.
   */
  lemma {:induction false} LockedChecksNothing(p: Policy, run: seq<Login>, from: int, i: nat, j: nat)
    requires InOrder(run, from) && NoLogin(p, None, run) && i < j < |Failures(p, None, run)|
    ensures var fs := Failures(p, None, run);
      && (fs[i].row.lockedUntil.Some? ==> fs[i].row.lockedUntil.value <= fs[j].checked)
      && fs[i].at <= fs[j].checked <= fs[j].at
    decreases j
  {
    hide InOrder, NoLogin, Failures;
    var fs := Failures(p, None, run);
    RunLinked(p, run, from);
    assert Follows(p, fs[j - 1], fs[j]);
    if i < j - 1 { LockedChecksNothing(p, run, from, i, j - 1); }
  }

  /** A successful login forgets: what follows it goes as for a key that has never failed. */
  lemma {:induction false} LoginForgets(p: Policy, row: Option<Row>, before: seq<Login>, a: Login, rest: seq<Login>)
    requires OutcomeOf(RowAfter(p, row, before), a) == LoggedIn
    ensures Failures(p, row, before + [a] + rest) == Failures(p, row, before) + Failures(p, None, rest)
    ensures RowAfter(p, row, before + [a] + rest) == RowAfter(p, None, rest)
    decreases |before|
  {
    hide OutcomeOf;
    var all := before + [a] + rest;
    if before == [] {
      assert all[0] == a && all[1..] == rest;
      assert Failures(p, row, []) == [];
    } else {
      assert all[0] == before[0] && all[1..] == before[1..] + [a] + rest;
      LoginForgets(p, Step(p, row, before[0]), before[1..], a, rest);
    }
  }

  function RowAfter(p: Policy, row: Option<Row>, run: seq<Login>): Option<Row>
    decreases |run|
  {
    if run == [] then row else RowAfter(p, Step(p, row, run[0]), run[1..])
  }

  /** A right password logs in exactly when no failure before it has left a lock that still holds. */
  lemma RightPassword(p: Policy, run: seq<Login>, from: int, a: Login)
    requires InOrder(run, from) && NoLogin(p, None, run) && a.ok
    ensures var fs := Failures(p, None, run);
      OutcomeOf(RowAfter(p, None, run), a) == LoggedIn <==>
      fs == [] || fs[|fs| - 1].row.lockedUntil.None? || fs[|fs| - 1].row.lockedUntil.value <= a.at
  {
    LastRow(p, None, run);
  }

  lemma {:induction false} LastRow(p: Policy, row: Option<Row>, run: seq<Login>)
    requires NoLogin(p, row, run)
    ensures var fs := Failures(p, row, run);
      RowAfter(p, row, run) == if fs == [] then row else Some(fs[|fs| - 1].row)
    decreases |run|
  {
    hide OutcomeOf, Failed;
    if run != [] {
      LastRow(p, Step(p, row, run[0]), run[1..]);
      StepRow(p, row, run[0]);
    }
  }

  lemma StepRow(p: Policy, row: Option<Row>, a: Login)
    requires OutcomeOf(row, a) != LoggedIn
    ensures Step(p, row, a) == if OutcomeOf(row, a) == Rejected then Some(Failed(p, row, a.recorded)) else row
  {
  }

  // ----- the service -----

  class AuthService {
    var policy: Policy
    var rows: map<string, Row>

    constructor (policy: Policy)
      ensures this.policy == policy && rows == map[]
    {
      this.policy, rows := policy, map[];
    }

    function RowOf(key: string): Option<Row>
      reads this
    {
      if key in rows then Some(rows[key]) else None
    }

    /** Counts the failure; `true` when it locks the key. */
    method RecordFailure(key: string, now: int) returns (locks: bool)
      modifies `rows
      ensures rows == old(rows)[key := Failed(policy, old(RowOf(key)), now)]
      ensures locks == RowOf(key).value.lockedUntil.Some?
    {
      var inWindow := key in rows && now - rows[key].firstFailedAt <= policy.window;
      var attempts := if inWindow then rows[key].attempts + 1 else 1;
      var lockedUntil := if attempts >= policy.maxFailed then Some(now + policy.lockout) else None;
      rows := rows[key := Row(attempts, if inWindow then rows[key].firstFailedAt else now, lockedUntil)];
      locks := lockedUntil.Some?;
    }

    /** Each login moves its own key's row one step and leaves the others. */
    method LogIn(key: string, a: Login) returns (outcome: Outcome)
      modifies `rows
      ensures outcome == OutcomeOf(old(RowOf(key)), a)
      ensures RowOf(key) == Step(policy, old(RowOf(key)), a)
      ensures rows - {key} == old(rows) - {key}
    {
      if key in rows && rows[key].lockedUntil.Some? && rows[key].lockedUntil.value > a.at { return Locked; }
      if !a.ok {
        var locks := RecordFailure(key, a.recorded);
        return Rejected;
      }
      rows := rows - {key};
      outcome := LoggedIn;
    }
  }
}
