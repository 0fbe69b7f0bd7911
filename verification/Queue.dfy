/**
 The limiter all language model calls go through: a bounded number of tasks runs, a bounded number
 waits, and waiting tasks start by priority, then in the order they came.
 */
module Queue {
  import opened Values

  datatype Config = Config(maxConcurrency: int, maxQueue: int, timeoutMs: int)

  /** A waiting task; `timed` when a time-out was set for it. */
  datatype Waiter = Waiter(id: nat, priority: int, sequence: nat, timed: bool)

  datatype Ending = Done | Busy | TimedOut

  /** The queue, with the history of its tasks: task `k` is the `k`-th one submitted. */
  datatype State = State(
    cfg: Config,
    running: set<nat>,
    waiters: seq<Waiter>,
    counter: nat,
    priorities: seq<int>,
    settled: map<nat, Ending>)

  datatype Event = Submit(priority: int) | Finish(id: nat) | Expire(id: nat) | Configure(cfg: Config)

  // ----- the order of the waiting tasks -----

  predicate Precedes(u: Waiter, w: Waiter) {
    u.priority > w.priority || (u.priority == w.priority && u.sequence < w.sequence)
  }

  function Without(ws: seq<Waiter>, i: nat): seq<Waiter>
    requires i < |ws|
  {
    ws[..i] + ws[i + 1..]
  }

  /** The place of the waiter that comes first. */
  function First(ws: seq<Waiter>): (i: nat)
    requires ws != []
    ensures i < |ws|
    ensures forall k :: 0 <= k < |ws| ==> !Precedes(ws[k], ws[i])
  {
    if |ws| == 1 then 0
    else
      var n := |ws| - 1;
      var i := First(ws[..n]);
      if Precedes(ws[n], ws[i]) then n else i
  }

  /** The waiters sorted by priority, then by arrival. */
  function Ordered(ws: seq<Waiter>): (r: seq<Waiter>)
    ensures |r| == |ws|
    decreases |ws|
  {
    if ws == [] then [] else [ws[First(ws)]] + Ordered(Without(ws, First(ws)))
  }

  /** How many of the waiters come before `w`. */
  function Ahead(ws: seq<Waiter>, w: Waiter): nat {
    if ws == [] then 0 else Ahead(ws[..|ws| - 1], w) + if Precedes(ws[|ws| - 1], w) then 1 else 0
  }

  /** The first place at which a waiter with this sequence number stands. */
  function PlaceOf(ws: seq<Waiter>, sequence: nat): (i: nat)
    requires exists w :: w in ws && w.sequence == sequence
    ensures i < |ws| && ws[i].sequence == sequence
  {
    if ws[0].sequence == sequence then 0
    else
      assert forall w :: w in ws ==> w == ws[0] || w in ws[1..];
      1 + PlaceOf(ws[1..], sequence)
  }

  // ----- the transitions -----

  /** Starts waiting tasks while there is room. */
  function Pump(s: State): State
    decreases |s.waiters|
  {
    if |s.running| < s.cfg.maxConcurrency && s.waiters != [] then
      var i := First(s.waiters);
      Pump(s.(running := s.running + {s.waiters[i].id}, waiters := Without(s.waiters, i)))
    else s
  }

  function Submitted(s: State, priority: int): State {
    var id := |s.priorities|;
    var t := s.(priorities := s.priorities + [priority]);
    if |s.running| < s.cfg.maxConcurrency then t.(running := s.running + {id})
    else if |s.waiters| >= s.cfg.maxQueue then t.(settled := s.settled[id := Busy])
    else t.(waiters := s.waiters + [Waiter(id, priority, s.counter, s.cfg.timeoutMs > 0)], counter := s.counter + 1)
  }

  /** The place of a task among the waiters, or their number. */
  function WaitsAt(ws: seq<Waiter>, id: nat): (i: nat)
    ensures i <= |ws| && (i < |ws| ==> ws[i].id == id)
    ensures forall k :: 0 <= k < i ==> ws[k].id != id
  {
    if ws == [] || ws[0].id == id then 0 else 1 + WaitsAt(ws[1..], id)
  }

  function Apply(s: State, e: Event): State {
    match e
    case Submit(priority) => Submitted(s, priority)
    case Finish(id) => Pump(s.(running := s.running - {id}, settled := s.settled[id := Done]))
    case Expire(id) =>
      var i := WaitsAt(s.waiters, id);
      if i == |s.waiters| then s
      else s.(waiters := Without(s.waiters, i), settled := s.settled[id := TimedOut])
    case Configure(cfg) => Pump(s.(cfg := cfg))
  }

  /** A task finishes only while it runs; a time-out fires only for a task that has one. */
  predicate Enabled(s: State, e: Event) {
    match e
    case Finish(id) => id in s.running
    case Expire(id) => WaitsAt(s.waiters, id) < |s.waiters| ==> s.waiters[WaitsAt(s.waiters, id)].timed
    case _ => true
  }

  function Start(cfg: Config): State {
    State(cfg, {}, [], 0, [], map[])
  }

  /** The state after a list of events. */
  function Run(s: State, events: seq<Event>): State {
    if events == [] then s else Apply(Run(s, events[..|events| - 1]), events[|events| - 1])
  }

  ghost predicate Possible(s: State, events: seq<Event>) {
    forall k :: 0 <= k < |events| ==> Enabled(Run(s, events[..k]), events[k])
  }

  // ----- invariant -----

  predicate Waiting(s: State, id: nat) {
    exists k :: 0 <= k < |s.waiters| && s.waiters[k].id == id
  }

  /** Every submitted task is in exactly one of running, waiting and settled, and nothing else is. */
  ghost predicate Partitioned(s: State) {
    && (forall id: nat :: id in s.running || Waiting(s, id) || id in s.settled ==> id < |s.priorities|)
    && (forall id: nat :: id < |s.priorities| ==> id in s.running || Waiting(s, id) || id in s.settled)
    && (forall id: nat :: id in s.running ==> !Waiting(s, id) && id !in s.settled)
    && (forall id: nat :: Waiting(s, id) ==> id !in s.settled)
  }

  /** Waiters stand in the order they came, with the priorities they came with. */
  ghost predicate Lined(s: State) {
    && (forall i, j :: 0 <= i < j < |s.waiters| ==>
          s.waiters[i].sequence < s.waiters[j].sequence && s.waiters[i].id < s.waiters[j].id)
    && (forall k :: 0 <= k < |s.waiters| ==>
          && s.waiters[k].sequence < s.counter && s.waiters[k].id < |s.priorities|
          && s.priorities[s.waiters[k].id] == s.waiters[k].priority)
  }

  /** Tasks wait only while the limit is reached. */
  predicate Busied(s: State) {
    s.waiters != [] ==> |s.running| >= s.cfg.maxConcurrency
  }

  predicate HasStarted(s: State, id: nat) {
    id in s.running || (id in s.settled && s.settled[id] == Done)
  }

  /** No task that came later, with no higher priority, has started before a waiting one. */
  ghost predicate NoOvertaking(s: State) {
    forall k: nat, b: nat :: k < |s.waiters| && s.waiters[k].id < b < |s.priorities| && s.priorities[b] <= s.waiters[k].priority ==>
      !HasStarted(s, b)
  }

  /** All but the last condition, which pumping restores. */
  ghost predicate Core(s: State) {
    Partitioned(s) && Lined(s) && NoOvertaking(s)
  }

  ghost predicate Inv(s: State) {
    Core(s) && Busied(s)
  }

  // ----- each step keeps it -----

  lemma WithoutAt(ws: seq<Waiter>, i: nat, k: nat)
    requires i < |ws| && k < |ws| - 1
    ensures Without(ws, i)[k] == ws[if k < i then k else k + 1]
  {
  }

  lemma StaysWaiting(ws: seq<Waiter>, i: nat, k: nat)
    requires i < |ws| && k < |ws| && k != i
    ensures var j := if k < i then k else k - 1; j < |Without(ws, i)| && Without(ws, i)[j] == ws[k]
  {
  }

  lemma WaitingWithout(s: State, t: State, i: nat)
    requires Lined(s) && i < |s.waiters| && t.waiters == Without(s.waiters, i)
    ensures forall id :: Waiting(t, id) <==> Waiting(s, id) && id != s.waiters[i].id
  {
    var ws := s.waiters;
    assert |t.waiters| == |ws| - 1;
    hide Without;
    forall id ensures Waiting(t, id) <==> Waiting(s, id) && id != ws[i].id {
      if Waiting(t, id) {
        var k :| 0 <= k < |t.waiters| && t.waiters[k].id == id;
        WithoutAt(ws, i, k);
      }
      if Waiting(s, id) && id != ws[i].id {
        var k :| 0 <= k < |ws| && ws[k].id == id;
        StaysWaiting(ws, i, k);
      }
    }
  }

  lemma LinedWithout(s: State, t: State, i: nat)
    requires Lined(s) && i < |s.waiters| && t.waiters == Without(s.waiters, i)
    requires t.counter == s.counter && t.priorities == s.priorities
    ensures Lined(t)
  {
    forall k | 0 <= k < |t.waiters| ensures t.waiters[k] == s.waiters[if k < i then k else k + 1] {
      WithoutAt(s.waiters, i, k);
    }
  }

  /** A waiter that leaves, whether to run or by time-out. */
  lemma LeaveKeeps(s: State, i: nat, t: State)
    requires Core(s) && i < |s.waiters|
    requires t.waiters == Without(s.waiters, i) && t.counter == s.counter && t.priorities == s.priorities
    requires var id := s.waiters[i].id;
             || (t.running == s.running + {id} && t.settled == s.settled && First(s.waiters) == i)
             || (t.running == s.running && t.settled == s.settled[id := TimedOut])
    ensures Core(t)
  {
    WaitingWithout(s, t, i);
    LinedWithout(s, t, i);
    var w := s.waiters[i];
    assert Waiting(s, w.id);
    forall k: nat, b: nat | k < |t.waiters| && t.waiters[k].id < b < |t.priorities| && t.priorities[b] <= t.waiters[k].priority
      ensures !HasStarted(t, b)
    {
      var j := if k < i then k else k + 1;
      WithoutAt(s.waiters, i, k);
      assert !HasStarted(s, b);
      if First(s.waiters) == i && s.waiters[j].id < w.id { FirstOverOlder(s, i, j); }
    }
  }

  /** The waiter that comes first has a higher priority than those that came before it. */
  lemma FirstOverOlder(s: State, i: nat, j: nat)
    requires Lined(s) && i < |s.waiters| && j < |s.waiters| && First(s.waiters) == i
    requires s.waiters[j].id < s.waiters[i].id
    ensures s.waiters[j].priority < s.waiters[i].priority
  {
  }

  lemma {:induction false} PumpKeeps(s: State)
    requires Core(s)
    ensures Inv(Pump(s)) && Pump(s).cfg == s.cfg && Pump(s).priorities == s.priorities && Pump(s).settled == s.settled
    decreases |s.waiters|
  {
    if |s.running| < s.cfg.maxConcurrency && s.waiters != [] {
      var i := First(s.waiters);
      var t := s.(running := s.running + {s.waiters[i].id}, waiters := Without(s.waiters, i));
      LeaveKeeps(s, i, t);
      PumpKeeps(t);
    }
  }

  lemma StartKeeps(s: State, priority: int, t: State)
    requires Inv(s) && |s.running| < s.cfg.maxConcurrency && t == Submitted(s, priority)
    ensures Inv(t)
  {
    var id := |s.priorities|;
    assert s.waiters == [] && id !in s.running && id !in s.settled;
  }

  lemma RejectKeeps(s: State, priority: int, t: State)
    requires Inv(s) && |s.running| >= s.cfg.maxConcurrency && |s.waiters| >= s.cfg.maxQueue && t == Submitted(s, priority)
    ensures Inv(t)
  {
    var id := |s.priorities|;
    assert forall x :: Waiting(t, x) <==> Waiting(s, x);
    assert !Waiting(s, id) && id !in s.running && id !in s.settled;
    assert forall x: nat :: HasStarted(t, x) <==> HasStarted(s, x);
  }

  lemma WaitKeeps(s: State, priority: int, t: State)
    requires Inv(s) && |s.running| >= s.cfg.maxConcurrency && |s.waiters| < s.cfg.maxQueue && t == Submitted(s, priority)
    ensures Inv(t)
  {
    var id, n := |s.priorities|, |s.waiters|;
    forall x ensures Waiting(t, x) <==> Waiting(s, x) || x == id {
      if Waiting(s, x) {
        var k :| 0 <= k < n && s.waiters[k].id == x;
        assert t.waiters[k].id == x;
      }
      if x == id { assert t.waiters[n].id == x; }
    }
    assert !Waiting(s, id) && id !in s.running && id !in s.settled;
    assert forall k :: 0 <= k < n ==> t.waiters[k] == s.waiters[k];
    assert Lined(t);
    assert forall x: nat :: HasStarted(t, x) <==> HasStarted(s, x);
  }

  lemma SubmitKeeps(s: State, priority: int)
    requires Inv(s)
    ensures Inv(Submitted(s, priority))
  {
    hide Inv;
    var t := Submitted(s, priority);
    if |s.running| < s.cfg.maxConcurrency {
      StartKeeps(s, priority, t);
    } else if |s.waiters| >= s.cfg.maxQueue {
      RejectKeeps(s, priority, t);
    } else {
      WaitKeeps(s, priority, t);
    }
  }

  lemma FinishKeeps(s: State, id: nat)
    requires Inv(s) && id in s.running
    ensures Inv(Apply(s, Finish(id)))
  {
    var t := s.(running := s.running - {id}, settled := s.settled[id := Done]);
    assert forall x :: Waiting(t, x) <==> Waiting(s, x);
    assert forall x: nat :: HasStarted(t, x) <==> HasStarted(s, x);
    PumpKeeps(t);
  }

  lemma ExpireKeeps(s: State, id: nat)
    requires Inv(s)
    ensures Inv(Apply(s, Expire(id)))
  {
    var i := WaitsAt(s.waiters, id);
    if i < |s.waiters| { LeaveKeeps(s, i, Apply(s, Expire(id))); }
  }

  lemma ConfigureKeeps(s: State, cfg: Config)
    requires Inv(s)
    ensures Inv(Apply(s, Configure(cfg)))
  {
    var t := s.(cfg := cfg);
    assert forall x :: Waiting(t, x) <==> Waiting(s, x);
    assert forall x: nat :: HasStarted(t, x) <==> HasStarted(s, x);
    assert Partitioned(t) && Lined(t);
    PumpKeeps(t);
  }

  /** Every event keeps the invariant. */
  lemma StepKeeps(s: State, e: Event)
    requires Inv(s) && Enabled(s, e)
    ensures Inv(Apply(s, e))
  {
    hide Inv, Apply;
    match e
    case Submit(priority) =>
      SubmitKeeps(s, priority);
      SubmitApplies(s, priority);
    case Finish(id) => FinishKeeps(s, id);
    case Expire(id) => ExpireKeeps(s, id);
    case Configure(cfg) => ConfigureKeeps(s, cfg);
  }

  lemma SubmitApplies(s: State, priority: int)
    ensures Apply(s, Submit(priority)) == Submitted(s, priority)
  {
  }

  // ----- whole runs -----

  lemma PossiblePrefix(s: State, events: seq<Event>)
    requires Possible(s, events) && events != []
    ensures var n := |events| - 1; Possible(s, events[..n]) && Enabled(Run(s, events[..n]), events[n])
  {
    var n := |events| - 1;
    forall k | 0 <= k < n ensures Enabled(Run(s, events[..n][..k]), events[..n][k]) {
      assert events[..n][..k] == events[..k];
    }
  }

  /** The invariant holds after every possible run from the empty queue. */
  lemma {:induction false} RunKeeps(cfg: Config, events: seq<Event>)
    requires Possible(Start(cfg), events)
    ensures Inv(Run(Start(cfg), events))
  {
    hide Inv;
    if events == [] {
      assert Inv(Start(cfg)) by { EmptyInv(cfg); }
    } else {
      PossiblePrefix(Start(cfg), events);
      RunKeeps(cfg, events[..|events| - 1]);
      StepKeeps(Run(Start(cfg), events[..|events| - 1]), events[|events| - 1]);
    }
  }

  lemma EmptyInv(cfg: Config)
    ensures Inv(Start(cfg))
  {
  }

  lemma {:induction false} PumpStarts(s: State)
    ensures s.running <= Pump(s).running
    ensures Pump(s).running != s.running ==> |Pump(s).running| <= s.cfg.maxConcurrency
    ensures |Pump(s).waiters| <= |s.waiters|
    decreases |s.waiters|
  {
    if |s.running| < s.cfg.maxConcurrency && s.waiters != [] {
      var i := First(s.waiters);
      PumpStarts(s.(running := s.running + {s.waiters[i].id}, waiters := Without(s.waiters, i)));
    }
  }

  /** Nothing starts at or above the limit: after a start the number of running tasks is within it. */
  lemma StartsBelowLimit(s: State, e: Event, id: nat)
    requires Inv(s) && Enabled(s, e) && id in Apply(s, e).running && id !in s.running
    ensures |Apply(s, e).running| <= Apply(s, e).cfg.maxConcurrency
  {
    match e
    case Finish(f) =>
      var t := s.(running := s.running - {f}, settled := s.settled[f := Done]);
      PumpStarts(t);
      PumpKeepsConfig(t);
    case Configure(cfg) =>
      PumpStarts(s.(cfg := cfg));
      PumpKeepsConfig(s.(cfg := cfg));
    case _ =>
  }

  lemma {:induction false} PumpKeepsConfig(s: State)
    ensures Pump(s).cfg == s.cfg
    decreases |s.waiters|
  {
    if |s.running| < s.cfg.maxConcurrency && s.waiters != [] {
      var i := First(s.waiters);
      PumpKeepsConfig(s.(running := s.running + {s.waiters[i].id}, waiters := Without(s.waiters, i)));
    }
  }

  /** The running and the waiting tasks are within their limits. */
  predicate WithinLimits(s: State) {
    && (s.running == {} || |s.running| <= s.cfg.maxConcurrency)
    && (s.waiters == [] || |s.waiters| <= s.cfg.maxQueue)
  }

  lemma LimitsKept(s: State, e: Event)
    requires WithinLimits(s) && Enabled(s, e) && !e.Configure?
    ensures WithinLimits(Apply(s, e)) && Apply(s, e).cfg == s.cfg
  {
    hide Pump, Without;
    match e
    case Finish(id) =>
      var t := s.(running := s.running - {id}, settled := s.settled[id := Done]);
      assert |t.running| < |s.running|;
      PumpStarts(t);
      PumpKeepsConfig(t);
    case Expire(id) =>
      var i := WaitsAt(s.waiters, id);
      if i < |s.waiters| { assert |Without(s.waiters, i)| < |s.waiters| by { WithoutShorter(s.waiters, i); } }
    case Submit(priority) => SubmitWithinLimits(s, priority);
  }

  lemma WithoutShorter(ws: seq<Waiter>, i: nat)
    requires i < |ws|
    ensures |Without(ws, i)| == |ws| - 1
  {
  }

  lemma SubmitWithinLimits(s: State, priority: int)
    requires WithinLimits(s)
    ensures WithinLimits(Submitted(s, priority)) && Submitted(s, priority).cfg == s.cfg
  {
    var id := |s.priorities|;
    assert |s.running + {id}| <= |s.running| + 1;
  }

  /** With a constant configuration the limits hold after every run. */
  lemma {:induction false} RunWithinLimits(cfg: Config, events: seq<Event>)
    requires Possible(Start(cfg), events) && forall e :: e in events ==> !e.Configure?
    ensures WithinLimits(Run(Start(cfg), events)) && Run(Start(cfg), events).cfg == cfg
  {
    if events != [] {
      PossiblePrefix(Start(cfg), events);
      RunWithinLimits(cfg, events[..|events| - 1]);
      LimitsKept(Run(Start(cfg), events[..|events| - 1]), events[|events| - 1]);
    }
  }

  lemma {:induction false} PumpKeepsStarted(s: State, id: nat)
    ensures HasStarted(s, id) ==> HasStarted(Pump(s), id)
    ensures Pump(s).settled == s.settled
    decreases |s.waiters|
  {
    if |s.running| < s.cfg.maxConcurrency && s.waiters != [] {
      var i := First(s.waiters);
      PumpKeepsStarted(s.(running := s.running + {s.waiters[i].id}, waiters := Without(s.waiters, i)), id);
    }
  }

  /** A task is settled once, and a started task runs until it is done. */
  lemma SettledOnce(s: State, e: Event, id: nat)
    requires Inv(s) && Enabled(s, e)
    ensures id in s.settled ==> id in Apply(s, e).settled && Apply(s, e).settled[id] == s.settled[id]
    ensures HasStarted(s, id) ==> HasStarted(Apply(s, e), id)
  {
    match e
    case Finish(f) => PumpKeepsStarted(s.(running := s.running - {f}, settled := s.settled[f := Done]), id);
    case Configure(cfg) => PumpKeepsStarted(s.(cfg := cfg), id);
    case Expire(x) =>
      var i := WaitsAt(s.waiters, x);
      if i < |s.waiters| { assert Waiting(s, x); }
    case Submit(_) =>
  }

  // ----- the position a caller is told -----

  lemma {:induction false} AheadAppend(a: seq<Waiter>, b: seq<Waiter>, w: Waiter)
    ensures Ahead(a + b, w) == Ahead(a, w) + Ahead(b, w)
  {
    if b == [] {
      assert a + b == a;
    } else {
      assert (a + b)[..|a + b| - 1] == a + b[..|b| - 1];
      AheadAppend(a, b[..|b| - 1], w);
    }
  }

  lemma AheadWithout(ws: seq<Waiter>, i: nat, w: Waiter)
    requires i < |ws|
    ensures Ahead(ws, w) == Ahead(Without(ws, i), w) + if Precedes(ws[i], w) then 1 else 0
  {
    hide Precedes;
    assert ws == ws[..i] + [ws[i]] + ws[i + 1..];
    AheadAppend(ws[..i] + [ws[i]], ws[i + 1..], w);
    AheadAppend(ws[..i], [ws[i]], w);
    AheadAppend(ws[..i], ws[i + 1..], w);
    assert [ws[i]][..0] == [];
  }

  predicate DistinctSequences(ws: seq<Waiter>) {
    forall i, j :: 0 <= i < j < |ws| ==> ws[i].sequence != ws[j].sequence
  }

  lemma DistinctWithout(ws: seq<Waiter>, i: nat)
    requires DistinctSequences(ws) && i < |ws|
    ensures DistinctSequences(Without(ws, i)) && ws[i] !in Without(ws, i)
    ensures forall w :: w in ws && w != ws[i] ==> w in Without(ws, i)
  {
    var r := Without(ws, i);
    assert forall k :: 0 <= k < |r| ==> r[k] == ws[if k < i then k else k + 1];
    forall w | w in ws && w != ws[i] ensures w in r {
      var k :| 0 <= k < |ws| && ws[k] == w;
      assert r[if k < i then k else k - 1] == w;
    }
  }

  /** The waiters ahead of `w` are exactly those before it in the sorted list. */
  lemma {:induction false} PositionIsRank(ws: seq<Waiter>, w: Waiter)
    requires DistinctSequences(ws) && w in ws
    ensures Ahead(ws, w) < |ws| && Ordered(ws)[Ahead(ws, w)] == w
    decreases |ws|
  {
    hide Precedes;
    var i := First(ws);
    var rest := Without(ws, i);
    DistinctWithout(ws, i);
    AheadWithout(ws, i, w);
    if ws[i] == w {
      NoneAhead(ws, w);
      assert !Precedes(w, w) by { NotBeforeItself(w); }
    } else {
      PositionIsRank(rest, w);
      assert Precedes(ws[i], w) by { FirstPrecedes(ws, w); }
    }
  }

  lemma NotBeforeItself(w: Waiter)
    ensures !Precedes(w, w)
  {
  }

  lemma FirstPrecedes(ws: seq<Waiter>, w: Waiter)
    requires DistinctSequences(ws) && w in ws && ws[First(ws)] != w
    ensures Precedes(ws[First(ws)], w)
  {
    var k :| 0 <= k < |ws| && ws[k] == w;
    assert !Precedes(w, ws[First(ws)]);
  }

  lemma {:induction false} NoneAhead(ws: seq<Waiter>, w: Waiter)
    requires forall k :: 0 <= k < |ws| ==> !Precedes(ws[k], w)
    ensures Ahead(ws, w) == 0
  {
    if ws != [] { NoneAhead(ws[..|ws| - 1], w); }
  }

  // ----- waiting tasks start in turn -----

  /** What may happen while `w` waits: no new configuration, no time-out of `w`, no arrival of higher priority. */
  predicate Fair(e: Event, w: Waiter) {
    match e
    case Configure(_) => false
    case Expire(id) => id != w.id
    case Submit(priority) => priority <= w.priority
    case Finish(_) => true
  }

  function Finishes(events: seq<Event>): nat {
    if events == [] then 0 else Finishes(events[..|events| - 1]) + if events[|events| - 1].Finish? then 1 else 0
  }

  lemma LinedDistinct(s: State)
    requires Lined(s)
    ensures DistinctSequences(s.waiters)
  {
  }

  /** A completion lets exactly the first waiter start. */
  lemma FinishTakesFirst(s: State, id: nat)
    requires Inv(s) && WithinLimits(s) && id in s.running && s.waiters != []
    ensures var i := First(s.waiters); var t := Apply(s, Finish(id));
            t.waiters == Without(s.waiters, i) && s.waiters[i].id in t.running
  {
    var i := First(s.waiters);
    var t := s.(running := s.running - {id}, settled := s.settled[id := Done]);
    var u := t.(running := t.running + {t.waiters[i].id}, waiters := Without(t.waiters, i));
    assert Waiting(s, s.waiters[i].id);
    assert |u.running| == |s.running| >= s.cfg.maxConcurrency;
    assert Pump(u) == u;
    assert Pump(t) == u;
  }

  lemma TurnStep(s: State, e: Event, w: Waiter)
    requires Inv(s) && WithinLimits(s) && Enabled(s, e) && w in s.waiters && Fair(e, w)
    ensures var t := Apply(s, e);
            if w in t.waiters then Ahead(t.waiters, w) + (if e.Finish? then 1 else 0) <= Ahead(s.waiters, w)
            else HasStarted(t, w.id)
  {
    var ws, t := s.waiters, Apply(s, e);
    LinedDistinct(s);
    match e
    case Submit(priority) =>
      if t.waiters != ws {
        var last := t.waiters[|ws|];
        AheadAppend(ws, [last], w);
        assert [last][..0] == [];
        assert Ahead([last], w) == 0;
      }
    case Expire(id) =>
      var i := WaitsAt(ws, id);
      if i < |ws| {
        DistinctWithout(ws, i);
        AheadWithout(ws, i, w);
      }
    case Finish(id) =>
      FinishTakesFirst(s, id);
      var i := First(ws);
      DistinctWithout(ws, i);
      if ws[i] != w {
        FirstPrecedes(ws, w);
        AheadWithout(ws, i, w);
      }
  }

  /** With `p` waiters up to and including `w`, it has started by the `p`-th completion. */
  lemma {:induction false} StartsInTurn(s: State, events: seq<Event>, w: Waiter)
    requires Inv(s) && WithinLimits(s) && Possible(s, events) && w in s.waiters
    requires forall e :: e in events ==> Fair(e, w)
    ensures var t := Run(s, events);
            && Inv(t) && WithinLimits(t)
            && (if w in t.waiters then Ahead(t.waiters, w) + Finishes(events) <= Ahead(s.waiters, w)
                else HasStarted(t, w.id))
            && (Finishes(events) >= Ahead(s.waiters, w) + 1 ==> HasStarted(t, w.id))
  {
    hide Inv, WithinLimits, Apply, Enabled, HasStarted, Fair;
    if events != [] {
      var n := |events| - 1;
      PossiblePrefix(s, events);
      StartsInTurn(s, events[..n], w);
      var before, e := Run(s, events[..n]), events[n];
      StepKeeps(before, e);
      FairNotConfigure(e, w);
      LimitsKept(before, e);
      if w in before.waiters { TurnStep(before, e, w); }
      SettledOnce(before, e, w.id);
      if w !in before.waiters && w in Run(s, events).waiters { NoReturn(before, e, w); }
    }
  }

  lemma FairNotConfigure(e: Event, w: Waiter)
    requires Fair(e, w)
    ensures !e.Configure?
  {
  }

  /** A task that has started does not wait again. */
  lemma NoReturn(s: State, e: Event, w: Waiter)
    requires Inv(s) && Enabled(s, e) && HasStarted(s, w.id)
    ensures w !in Apply(s, e).waiters
  {
    StepKeeps(s, e);
    SettledOnce(s, e, w.id);
    StartedNotWaiting(Apply(s, e), w);
  }

  lemma StartedNotWaiting(s: State, w: Waiter)
    requires Inv(s) && HasStarted(s, w.id)
    ensures w !in s.waiters
  {
    assert !Waiting(s, w.id);
    forall k | 0 <= k < |s.waiters| ensures s.waiters[k].id != w.id {}
  }

  // ----- the class -----

  /** `orderedWaiters().findIndex(...) + 1` */
  function PositionOf(ws: seq<Waiter>, w: Waiter): nat
    requires DistinctSequences(ws) && w in ws
  {
    OrderedKeeps(ws);
    PlaceOf(Ordered(ws), w.sequence) + 1
  }

  /** Counted from 1, `w` is the `position`-th in the sorted list, with one less ahead of it. */
  predicate IsPosition(ws: seq<Waiter>, w: Waiter, position: nat) {
    1 <= position <= |ws| && Ordered(ws)[position - 1] == w && position == Ahead(ws, w) + 1
  }

  datatype Submission = Started | Refused | Queued(position: nat, waiting: nat)

  class LlmQueue {
    var cfg: Config
    var running: nat
    var waiters: seq<Waiter>
    var seqCounter: nat
    ghost var state: State  // what the fields stand for, with the history of the tasks

    ghost predicate Matches()
      reads this
    {
      cfg == state.cfg && running == |state.running| && waiters == state.waiters && seqCounter == state.counter
    }

    ghost predicate Valid()
      reads this
    {
      Matches() && Inv(state)
    }

    constructor (cfg: Config)
      ensures Valid() && state == Start(cfg)
    {
      this.cfg, running, waiters, seqCounter := cfg, 0, [], 0;
      state := Start(cfg);
      new;
      EmptyInv(cfg);
    }

    /** Starts waiting tasks while there is room. */
    method PumpWaiters()
      requires Matches() && Core(state)
      modifies this
      ensures Valid() && state == Pump(old(state))
    {
      hide Core, Inv, Ordered, Pump;
      PumpKeeps(state);
      while running < cfg.maxConcurrency && waiters != []
        invariant Matches() && Core(state) && Pump(state) == Pump(old(state))
        decreases |waiters|
      {
        OrderedHead(waiters);
        var next := Ordered(waiters)[0];
        var i := First(waiters);
        waiters := Without(waiters, i);
        running := running + 1;
        ghost var before := state;
        state := state.(running := state.running + {next.id}, waiters := Without(state.waiters, i));
        PumpStep(before, i, state);
      }
      PumpDone(state);
    }

    method SetConfig(cfg: Config)
      requires Valid()
      modifies this
      ensures Valid() && state == Apply(old(state), Configure(cfg))
    {
      hide Core, Inv, Pump;
      ConfigureCore(state, cfg);
      this.cfg := cfg;
      state := state.(cfg := cfg);
      PumpWaiters();
    }

    /** Submits the task `id`; one that has to wait is told its position among the waiting. */
    method Enqueue(id: nat, priority: int) returns (r: Submission)
      requires Valid() && id == |state.priorities|
      modifies this
      ensures Valid() && state == Apply(old(state), Submit(priority))
      ensures r.Started? <==> HasStarted(state, id)
      ensures r.Refused? <==> id in state.settled
      ensures r.Queued? ==>
                && r.waiting == |waiters| > 0 && waiters[|waiters| - 1].id == id
                && IsPosition(waiters, waiters[|waiters| - 1], r.position)
    {
      hide Inv, Apply, HasStarted, DistinctSequences, IsPosition, PositionOf;
      SubmitCases(state, priority, id);
      state := Apply(state, Submit(priority));
      if running < cfg.maxConcurrency {
        running := running + 1;
        return Started;
      }
      if |waiters| >= cfg.maxQueue {
        return Refused;
      }
      InvDistinct(state);
      var w := Waiter(id, priority, seqCounter, cfg.timeoutMs > 0);
      waiters := waiters + [w];
      assert waiters == state.waiters && waiters[|waiters| - 1] == w;
      var position := PositionOf(waiters, w);
      PlaceIsRank(waiters, w);
      seqCounter := seqCounter + 1;
      return Queued(position, |waiters|);
    }

    /** The end of a running task. */
    method TaskEnded(id: nat)
      requires Valid() && id in state.running
      modifies this
      ensures Valid() && state == Apply(old(state), Finish(id))
    {
      hide Core, Inv, Pump;
      FinishCore(state, id);
      running := running - 1;
      state := state.(running := state.running - {id}, settled := state.settled[id := Done]);
      PumpWaiters();
    }

    /** The timer of a waiting task. */
    method TimerFired(id: nat)
      requires Valid() && Enabled(state, Expire(id))
      modifies this
      ensures Valid() && state == Apply(old(state), Expire(id))
    {
      hide Inv;
      ExpireKeeps(state, id);
      state := Apply(state, Expire(id));
      var i := WaitsAt(waiters, id);
      if i < |waiters| {
        waiters := Without(waiters, i);
      }
    }
  }

  lemma ConfigureCore(s: State, cfg: Config)
    requires Inv(s)
    ensures Core(s.(cfg := cfg))
  {
    var t := s.(cfg := cfg);
    assert forall x: nat :: Waiting(t, x) <==> Waiting(s, x);
    assert forall x: nat :: HasStarted(t, x) <==> HasStarted(s, x);
  }

  lemma OrderedHead(ws: seq<Waiter>)
    requires ws != []
    ensures |Ordered(ws)| == |ws| && Ordered(ws)[0] == ws[First(ws)]
  {
  }

  lemma PumpStep(s: State, i: nat, t: State)
    requires Core(s) && |s.running| < s.cfg.maxConcurrency && s.waiters != [] && First(s.waiters) == i
    requires t == s.(running := s.running + {s.waiters[i].id}, waiters := Without(s.waiters, i))
    ensures Core(t) && Pump(t) == Pump(s) && |t.running| == |s.running| + 1
  {
    assert Waiting(s, s.waiters[i].id);
    LeaveKeeps(s, i, t);
  }

  lemma PumpDone(s: State)
    requires |s.running| >= s.cfg.maxConcurrency || s.waiters == []
    ensures Pump(s) == s
  {
  }

  lemma FinishCore(s: State, id: nat)
    requires Inv(s) && id in s.running
    ensures Core(s.(running := s.running - {id}, settled := s.settled[id := Done]))
    ensures |s.running - {id}| == |s.running| - 1
  {
    var t := s.(running := s.running - {id}, settled := s.settled[id := Done]);
    assert forall x :: Waiting(t, x) <==> Waiting(s, x);
    assert forall x: nat :: HasStarted(t, x) <==> HasStarted(s, x);
  }

  /** The three outcomes of a submission. */
  lemma SubmitCases(s: State, priority: int, id: nat)
    requires Inv(s) && id == |s.priorities|
    ensures var t := Apply(s, Submit(priority));
            && Inv(t) && t.cfg == s.cfg
            && var starts, waits := |s.running| < s.cfg.maxConcurrency, |s.waiters| < s.cfg.maxQueue;
            && (HasStarted(t, id) <==> starts)
            && (id in t.settled <==> !starts && !waits)
            && |t.running| == |s.running| + (if starts then 1 else 0)
            && t.counter == s.counter + (if !starts && waits then 1 else 0)
            && t.waiters == s.waiters +
               if !starts && waits then [Waiter(id, priority, s.counter, s.cfg.timeoutMs > 0)] else []
  {
    assert !Waiting(s, id) && id !in s.running && id !in s.settled;
    SubmitKeeps(s, priority);
  }

  lemma InvDistinct(s: State)
    requires Inv(s)
    ensures DistinctSequences(s.waiters)
  {
  }

  /** Sorting keeps the waiters. */
  lemma {:induction false} OrderedKeeps(ws: seq<Waiter>)
    requires DistinctSequences(ws)
    ensures DistinctSequences(Ordered(ws)) && forall w :: w in Ordered(ws) <==> w in ws
    decreases |ws|
  {
    hide First, Precedes;
    if ws != [] {
      var i := First(ws);
      var rest := Ordered(Without(ws, i));
      DistinctWithout(ws, i);
      OrderedKeeps(Without(ws, i));
      MembersWithout(ws, i);
      SameSequence(ws, i, rest);
      assert Ordered(ws) == [ws[i]] + rest;
      forall j, k | 0 <= j < k < |ws| ensures Ordered(ws)[j].sequence != Ordered(ws)[k].sequence {
        assert Ordered(ws)[k] == rest[k - 1] && rest[k - 1] in rest;
      }
    }
  }

  lemma MembersWithout(ws: seq<Waiter>, i: nat)
    requires DistinctSequences(ws) && i < |ws|
    ensures forall w :: w in ws <==> w == ws[i] || w in Without(ws, i)
    ensures forall w :: w in Without(ws, i) ==> w in ws && w != ws[i]
  {
    DistinctWithout(ws, i);
  }

  lemma SameSequence(ws: seq<Waiter>, i: nat, rest: seq<Waiter>)
    requires DistinctSequences(ws) && i < |ws| && forall w :: w in rest ==> w in ws && w != ws[i]
    ensures forall w :: w in rest ==> w.sequence != ws[i].sequence
  {
    forall w | w in rest ensures w.sequence != ws[i].sequence {
      var k :| 0 <= k < |ws| && ws[k] == w;
    }
  }

  lemma PlaceIsRank(ws: seq<Waiter>, w: Waiter)
    requires DistinctSequences(ws) && w in ws
    ensures IsPosition(ws, w, PositionOf(ws, w))
  {
    OrderedKeeps(ws);
    PositionIsRank(ws, w);
    var p := PlaceOf(Ordered(ws), w.sequence);
    assert Ordered(ws)[p].sequence == Ordered(ws)[Ahead(ws, w)].sequence;
  }
}
