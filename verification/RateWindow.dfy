/** The limit on anonymous form submissions: a sliding window for each form and address, with forgotten entries pruned. */
module RateWindow {

  const MINUTE := 60000
  const MANY := 10000

  /** The configured limit: at least 1, at most 120. */
  function Limit(configured: int): nat {
    if configured < 1 then 1 else if configured > 120 then 120 else configured
  }

  type Times = map<string, seq<int>>

  function TimesOf(m: Times, key: string): seq<int> {
    if key in m then m[key] else []
  }

  /** The times after `start`. */
  function Recent(times: seq<int>, start: int): (r: seq<int>)
    ensures |r| <= |times|
  {
    if times == [] then []
    else
      var n := |times| - 1;
      Recent(times[..n], start) + if times[n] > start then [times[n]] else []
  }

  /** Entries without a time after `start` are dropped. */
  function Pruned(m: Times, start: int): Times {
    map key | key in m && Recent(m[key], start) != [] :: m[key]
  }

  datatype Submission = Submission(key: string, now: int)

  predicate Accepts(m: Times, s: Submission, limit: nat) {
    |Recent(TimesOf(m, s.key), s.now - MINUTE)| < limit
  }

  /** What the service keeps after a submission. A refused one changes nothing. */
  function Step(m: Times, s: Submission, limit: nat): Times {
    if !Accepts(m, s, limit) then m
    else
      var next := m[s.key := Recent(TimesOf(m, s.key), s.now - MINUTE) + [s.now]];
      if |next| > MANY then Pruned(next, s.now - MINUTE) else next
  }

  /** The reference: a log of everything that was accepted, never pruned. */
  function Log(m: Times, s: Submission, limit: nat): Times {
    if Accepts(m, s, limit) then m[s.key := TimesOf(m, s.key) + [s.now]] else m
  }

  function Run(m: Times, run: seq<Submission>, limit: nat): Times {
    if run == [] then m else Step(Run(m, run[..|run| - 1], limit), run[|run| - 1], limit)
  }

  function FullLog(run: seq<Submission>, limit: nat): Times {
    if run == [] then map[] else Log(FullLog(run[..|run| - 1], limit), run[|run| - 1], limit)
  }

  predicate Clocked(run: seq<Submission>) {
    forall i, j :: 0 <= i < j < |run| ==> run[i].now <= run[j].now
  }

  // ----- pruning changes no decision -----

  lemma {:induction false} RecentRecent(times: seq<int>, start: int, later: int)
    requires start <= later
    ensures Recent(Recent(times, start), later) == Recent(times, later)
  {
    if times != [] {
      var n := |times| - 1;
      RecentRecent(times[..n], start, later);
      RecentSnoc(Recent(times[..n], start), times[n], later);
      if times[n] <= start { assert Recent(times, start) == Recent(times[..n], start); }
    }
  }

  lemma RecentSnoc(times: seq<int>, t: int, start: int)
    ensures Recent(times + [t], start) == Recent(times, start) + if t > start then [t] else []
  {
    assert (times + [t])[..|times|] == times;
  }

  ghost predicate SameRecent(ts: seq<int>, us: seq<int>, start: int) {
    forall later :: start <= later ==> Recent(ts, later) == Recent(us, later)
  }

  /** From `start` on, both know the same times. */
  ghost predicate Agree(a: Times, b: Times, start: int) {
    forall key :: SameRecent(TimesOf(a, key), TimesOf(b, key), start)
  }

  lemma AgreePut(a: Times, b: Times, key: string, ts: seq<int>, us: seq<int>, start: int)
    requires Agree(a, b, start)
    requires SameRecent(ts, us, start)
    ensures Agree(a[key := ts], b[key := us], start)
  {
    hide SameRecent;
    var c, d := a[key := ts], b[key := us];
    forall k ensures SameRecent(TimesOf(c, k), TimesOf(d, k), start) {
      if k != key {
        assert TimesOf(c, k) == TimesOf(a, k) && TimesOf(d, k) == TimesOf(b, k);
        assert SameRecent(TimesOf(a, k), TimesOf(b, k), start);
      }
    }
  }

  lemma {:induction false} NoneLater(times: seq<int>, start: int, later: int)
    requires start <= later && Recent(times, start) == []
    ensures Recent(times, later) == []
  {
    RecentRecent(times, start, later);
  }

  lemma PrunedAgrees(m: Times, start: int)
    ensures Agree(Pruned(m, start), m, start)
  {
    forall key ensures SameRecent(TimesOf(Pruned(m, start), key), TimesOf(m, key), start) {
      if key in m && Recent(m[key], start) == [] {
        forall later | start <= later ensures Recent([], later) == Recent(m[key], later) { NoneLater(m[key], start, later); }
      }
    }
  }

  lemma AgreeTrans(a: Times, b: Times, c: Times, start: int)
    requires Agree(a, b, start) && Agree(b, c, start)
    ensures Agree(a, c, start)
  {
    forall key ensures SameRecent(TimesOf(a, key), TimesOf(c, key), start) {
      assert SameRecent(TimesOf(a, key), TimesOf(b, key), start) && SameRecent(TimesOf(b, key), TimesOf(c, key), start);
    }
  }

  lemma StepAgrees(m: Times, full: Times, s: Submission, limit: nat)
    requires Agree(m, full, s.now - MINUTE)
    ensures Accepts(m, s, limit) == Accepts(full, s, limit)
    ensures Agree(Step(m, s, limit), Log(full, s, limit), s.now - MINUTE)
  {
    hide Recent, Pruned, TimesOf;
    var start := s.now - MINUTE;
    assert SameRecent(TimesOf(m, s.key), TimesOf(full, s.key), start);
    if Accepts(m, s, limit) {
      var ts, us := Recent(TimesOf(m, s.key), start) + [s.now], TimesOf(full, s.key) + [s.now];
      forall later | start <= later ensures Recent(ts, later) == Recent(us, later) {
        RecentSnoc(Recent(TimesOf(m, s.key), start), s.now, later);
        RecentSnoc(TimesOf(full, s.key), s.now, later);
        RecentRecent(TimesOf(m, s.key), start, later);
      }
      AgreePut(m, full, s.key, ts, us, start);
      var next := m[s.key := ts];
      PrunedAgrees(next, start);
      if |next| > MANY { AgreeTrans(Pruned(next, start), next, full[s.key := us], start); }
    }
  }

  lemma {:induction false} RunAgrees(run: seq<Submission>, limit: nat, start: int)
    requires Clocked(run) && (run != [] ==> run[|run| - 1].now - MINUTE <= start)
    ensures Agree(Run(map[], run, limit), FullLog(run, limit), start)
  {
    hide Agree, Step, Log;
    if run == [] {
      AgreeEmpty(start);
    } else {
      var before, s := run[..|run| - 1], run[|run| - 1];
      RunAgrees(before, limit, s.now - MINUTE);
      StepAgrees(Run(map[], before, limit), FullLog(before, limit), s, limit);
      AgreeLater(Run(map[], run, limit), FullLog(run, limit), s.now - MINUTE, start);
    }
  }

  lemma AgreeEmpty(start: int)
    ensures Agree(map[], map[], start)
  {
  }

  lemma AgreeLater(a: Times, b: Times, start: int, later: int)
    requires Agree(a, b, start) && start <= later
    ensures Agree(a, b, later)
  {
    forall key ensures SameRecent(TimesOf(a, key), TimesOf(b, key), later) {
      assert SameRecent(TimesOf(a, key), TimesOf(b, key), start);
    }
  }

  /** After every run on a clock that does not go back, the pruned map decides as the full log would. */
  lemma PruningDecidesNothing(run: seq<Submission>, s: Submission, limit: nat)
    requires Clocked(run + [s])
    ensures Accepts(Run(map[], run, limit), s, limit) == Accepts(FullLog(run, limit), s, limit)
  {
    hide Agree, Accepts;
    if run != [] {
      var all := run + [s];
      assert all[|run| - 1] == run[|run| - 1] && all[|run|] == s;
    }
    assert Clocked(run) by { assert forall i :: 0 <= i < |run| ==> (run + [s])[i] == run[i]; }
    RunAgrees(run, limit, s.now - MINUTE);
    StepAgrees(Run(map[], run, limit), FullLog(run, limit), s, limit);
  }

  // ----- never more than the limit in a minute -----

  predicate Ordered(times: seq<int>) {
    forall i, j :: 0 <= i < j < |times| ==> times[i] <= times[j]
  }

  /** Any `limit + 1` accepted times in a row span at least a minute. */
  predicate Spaced(times: seq<int>, limit: nat) {
    forall i, j {:trigger times[i], times[j]} :: 0 <= i && i + limit <= j < |times| ==> times[j] - times[i] >= MINUTE
  }

  /** With sorted times, fewer than `limit` recent ones means that the one `limit` places back is not recent. */
  lemma {:induction false} RecentCounts(times: seq<int>, start: int, i: nat)
    requires Ordered(times) && i < |times| && times[i] > start
    ensures |Recent(times, start)| >= |times| - i
  {
    var n := |times| - 1;
    if i < n { RecentCounts(times[..n], start, i); }
  }

  predicate Fair(times: seq<int>, limit: nat, now: int) {
    Ordered(times) && Spaced(times, limit) && (times != [] ==> times[|times| - 1] <= now)
  }

  lemma AcceptedFair(times: seq<int>, limit: nat, now: int)
    requires limit > 0 && Fair(times, limit, now) && |Recent(times, now - MINUTE)| < limit
    ensures Fair(times + [now], limit, now)
  {
    var all := times + [now];
    forall i, j | 0 <= i && i + limit <= j < |all| ensures all[j] - all[i] >= MINUTE {
      if j == |times| && times[i] > now - MINUTE { RecentCounts(times, now - MINUTE, i); }
    }
  }

  lemma {:induction false} LogFair(run: seq<Submission>, limit: nat, key: string, now: int)
    requires limit > 0 && Clocked(run) && (run != [] ==> run[|run| - 1].now <= now)
    ensures Fair(TimesOf(FullLog(run, limit), key), limit, now)
  {
    hide Spaced, Ordered, Recent;
    if run == [] {
      NothingFair(limit, now);
    } else {
      var before, s := run[..|run| - 1], run[|run| - 1];
      LogFair(before, limit, key, s.now);
      var times := TimesOf(FullLog(before, limit), key);
      if key == s.key && Accepts(FullLog(before, limit), s, limit) { AcceptedFair(times, limit, s.now); }
    }
  }

  lemma NothingFair(limit: nat, now: int)
    ensures Fair([], limit, now)
  {
  }

  /** The times at which the service, with its pruned map, accepts a submission of the key. */
  function AcceptedTimes(run: seq<Submission>, limit: nat, key: string): seq<int> {
    if run == [] then []
    else
      var before, s := run[..|run| - 1], run[|run| - 1];
      AcceptedTimes(before, limit, key)
      + if s.key == key && Accepts(Run(map[], before, limit), s, limit) then [s.now] else []
  }

  lemma ClockedPrefix(run: seq<Submission>)
    requires Clocked(run) && run != []
    ensures Clocked(run[..|run| - 1]) && run == run[..|run| - 1] + [run[|run| - 1]]
  {
  }

  lemma {:induction false} AcceptedAreLogged(run: seq<Submission>, limit: nat, key: string)
    requires Clocked(run)
    ensures AcceptedTimes(run, limit, key) == TimesOf(FullLog(run, limit), key)
  {
    hide Accepts, Run, Clocked;
    if run != [] {
      var before, s := run[..|run| - 1], run[|run| - 1];
      ClockedPrefix(run);
      AcceptedAreLogged(before, limit, key);
      PruningDecidesNothing(before, s, limit);
    }
  }

  /** Over every run, a form and address have at most `limit` accepted submissions in any period of under a minute. */
  lemma AtMostLimitAMinute(run: seq<Submission>, limit: nat, key: string, i: nat, j: nat)
    requires limit > 0 && Clocked(run) && i <= j < |AcceptedTimes(run, limit, key)|
    requires AcceptedTimes(run, limit, key)[j] - AcceptedTimes(run, limit, key)[i] < MINUTE
    ensures j - i + 1 <= limit
  {
    hide FullLog, AcceptedTimes;
    AcceptedAreLogged(run, limit, key);
    LogFair(run, limit, key, if run == [] then 0 else run[|run| - 1].now);
  }

  // ----- exactly when a submission is accepted -----

  /** With sorted times, fewer than `limit` are recent exactly when the one `limit` places from the end is not. */
  lemma {:induction false} RecentAtMost(times: seq<int>, start: int, i: nat)
    requires Ordered(times) && i < |times| && times[i] <= start
    ensures |Recent(times, start)| < |times| - i
  {
    var n := |times| - 1;
    if i < n {
      RecentAtMost(times[..n], start, i);
    } else {
      NoneRecent(times, start);
    }
  }

  lemma {:induction false} NoneRecent(times: seq<int>, start: int)
    requires forall k :: 0 <= k < |times| ==> times[k] <= start
    ensures Recent(times, start) == []
  {
    if times != [] { NoneRecent(times[..|times| - 1], start); }
  }

  /**
   Over every run: a submission is accepted exactly when fewer than `limit` have been accepted for its form and
   address so far, or the one `limit` places back was a minute ago or longer.
   */
  lemma AcceptedExactly(run: seq<Submission>, s: Submission, limit: nat)
    requires limit > 0 && Clocked(run + [s])
    ensures var times := AcceptedTimes(run, limit, s.key);
      Accepts(Run(map[], run, limit), s, limit) <==> |times| < limit || times[|times| - limit] <= s.now - 60000
  {
    hide Run, FullLog, Recent, AcceptedTimes, Spaced;
    ClockedPrefix(run + [s]);
    assert (run + [s])[..|run|] == run;
    var times := AcceptedTimes(run, limit, s.key);
    PruningDecidesNothing(run, s, limit);
    AcceptedAreLogged(run, limit, s.key);
    if run != [] { assert (run + [s])[|run| - 1].now <= (run + [s])[|run|].now; }
    LogFair(run, limit, s.key, s.now);
    if |times| >= limit {
      var i := |times| - limit;
      if times[i] <= s.now - 60000 {
        RecentAtMost(times, s.now - MINUTE, i);
      } else {
        RecentCounts(times, s.now - MINUTE, i);
      }
    }
  }

  /** Some of the times is after `start`. */
  predicate Lately(times: seq<int>, start: int) {
    exists k :: 0 <= k < |times| && times[k] > start
  }

  lemma PrunedLately(m: Times, start: int)
    ensures forall key :: key in Pruned(m, start) ==> Lately(Pruned(m, start)[key], start)
  {
    forall key | key in Pruned(m, start) ensures Lately(m[key], start) {
      if !Lately(m[key], start) { NoneRecent(m[key], start); }
    }
  }

  /** After an acceptance, more than 10000 entries are kept only if each holds a time of the last minute. */
  lemma StaysSmall(m: Times, s: Submission, limit: nat)
    requires Accepts(m, s, limit)
    ensures var after := Step(m, s, limit);
      |after| <= 10000 || forall key :: key in after ==> Lately(after[key], s.now - 60000)
  {
    hide Pruned, Recent, TimesOf, Lately;
    PrunedLately(m[s.key := Recent(TimesOf(m, s.key), s.now - MINUTE) + [s.now]], s.now - MINUTE);
  }

  /** A configured limit from 1 to 120 is taken as it is, and any other as the nearest of these. */
  lemma LimitIs(configured: int)
    ensures 1 <= Limit(configured) <= 120
    ensures forall n :: 1 <= n <= 120 ==> Away(configured, Limit(configured)) <= Away(configured, n)
  {
  }

  function Away(a: int, b: int): nat {
    if a < b then b - a else a - b
  }

  // ----- the service -----

  class PublicFormsService {
    const limit: nat
    var submissionWindows: Times

    constructor (configured: int)
      ensures limit == Limit(configured) && submissionWindows == map[]
    {
      limit := Limit(configured);
      submissionWindows := map[];
    }

    method AfterStart(times: seq<int>, start: int) returns (r: seq<int>)
      ensures r == Recent(times, start)
    {
      r := [];
      for n := 0 to |times|
        invariant r == Recent(times[..n], start)
      {
        assert times[..n + 1][..n] == times[..n];
        if times[n] > start { r := r + [times[n]]; }
      }
      assert times[..|times|] == times;
    }

    method Prune(start: int)
      modifies this
      ensures submissionWindows == Pruned(old(submissionWindows), start)
    {
      ghost var was := submissionWindows;
      var todo := submissionWindows.Keys;
      while todo != {}
        invariant todo <= submissionWindows.Keys
        invariant submissionWindows.Keys <= was.Keys
        invariant forall key :: key in submissionWindows ==> submissionWindows[key] == was[key]
        invariant forall key :: key in was && key !in todo ==>
          (key in submissionWindows <==> Recent(was[key], start) != [])
        decreases |todo|
      {
        var entry :| entry in todo;
        var times := AfterStart(submissionWindows[entry], start);
        if times == [] { submissionWindows := submissionWindows - {entry}; }
        todo := todo - {entry};
      }
    }

    /** Accepts or refuses a submission, and keeps what later ones are measured by. */
    method AssertSubmissionRate(s: Submission) returns (accepted: bool)
      modifies this
      ensures accepted == Accepts(old(submissionWindows), s, limit)
      ensures submissionWindows == Step(old(submissionWindows), s, limit)
    {
      hide Recent, Pruned, TimesOf;
      var start := s.now - MINUTE;
      var recent := AfterStart(TimesOf(submissionWindows, s.key), start);
      if |recent| >= limit { return false; }
      recent := recent + [s.now];
      submissionWindows := submissionWindows[s.key := recent];
      if |submissionWindows| > MANY { Prune(start); }
      accepted := true;
    }
  }
}
