/**
 Stored records: updates that read first and commit later against a version, the change history,
 and the trash. Calls interleave freely; each read and each transaction is one step.
 */
module RecordStore {
  import opened Values

  /** One line of the change history. */
  datatype Entry = Entry(oldData: Record, newData: Record)

  datatype Stored = Stored(data: Record, version: nat, histories: seq<Entry>)

  /** An update between its read and its commit: the version the caller expects, and the data it read. */
  datatype Session = Session(id: nat, expected: nat, data: Record)

  /** `seen` are the ids given out so far. A removed record is in the trash under its own id. */
  datatype State = State(live: map<nat, Stored>, trash: map<nat, Stored>, open: map<nat, Session>, seen: set<nat>)

  const EMPTY_STORE := State(map[], map[], map[], {})

  /** What an update does with the data: the patch merged in and all fields computed again. */
  type Change = Record -> Record

  datatype Op =
    | Create(id: nat, data: Record)
    | Read(session: nat, id: nat, expected: nat)
    | Commit(session: nat, change: Change)
    | Abandon(session: nat)
    | Remove(id: nat)
    | Restore(id: nat)
    | Purge(id: nat)

  datatype Outcome = Done | NotFound | Conflict

  // ----- the steps -----

  /** The read step of an update: the record must exist and have the version the caller saw. */
  function ReadOutcome(s: State, id: nat, expected: nat): Outcome {
    if id !in s.live then NotFound else if s.live[id].version != expected then Conflict else Done
  }

  /** The write of an update only goes through when the version is still the expected one. */
  predicate Wins(s: State, session: nat) {
    && session in s.open
    && s.open[session].id in s.live
    && s.live[s.open[session].id].version == s.open[session].expected
  }

  function Written(r: Stored, read: Record, newData: Record): Stored {
    Stored(newData, r.version + 1, r.histories + [Entry(read, newData)])
  }

  function Restored(r: Stored): Stored {
    r.(version := r.version + 1)
  }

  /** Whether the step changes anything; if not it is refused. */
  predicate Succeeds(s: State, op: Op) {
    match op
    case Create(id, _) => id !in s.seen
    case Read(t, id, expected) => t !in s.open && ReadOutcome(s, id, expected) == Done
    case Commit(t, _) => Wins(s, t)
    case Abandon(t) => t in s.open
    case Remove(id) => id in s.live && id !in s.trash
    case Restore(id) => id in s.trash && id !in s.live
    case Purge(id) => id in s.trash
  }

  function Apply(s: State, op: Op): State {
    if !Succeeds(s, op) then (if op.Commit? then s.(open := s.open - {op.session}) else s)
    else match op
      case Create(id, data) => s.(live := s.live[id := Stored(data, 1, [])], seen := s.seen + {id})
      case Read(t, id, expected) => s.(open := s.open[t := Session(id, expected, s.live[id].data)])
      case Commit(t, change) =>
        var u := s.open[t];
        s.(live := s.live[u.id := Written(s.live[u.id], u.data, change(u.data))], open := s.open - {t})
      case Abandon(t) => s.(open := s.open - {t})
      case Remove(id) => s.(live := s.live - {id}, trash := s.trash[id := s.live[id]])
      case Restore(id) => s.(live := s.live[id := Restored(s.trash[id])], trash := s.trash - {id})
      case Purge(id) => s.(trash := s.trash - {id})
  }

  function Run(s: State, ops: seq<Op>): State
    decreases |ops|
  {
    if ops == [] then s else Run(Apply(s, ops[0]), ops[1..])
  }

  // ----- what every step keeps -----

  /** Each change starts from what the one before it left; the last one left the current data. */
  predicate Chains(h: seq<Entry>, data: Record) {
    && (forall k :: 0 < k < |h| ==> h[k].oldData == h[k - 1].newData)
    && (h != [] ==> h[|h| - 1].newData == data)
  }

  predicate Sound(r: Stored) {
    Chains(r.histories, r.data) && |r.histories| < r.version
  }

  predicate AllSound(m: map<nat, Stored>) {
    forall id :: id in m ==> Sound(m[id])
  }

  /** The version of a record, live or in the trash, is at least the expected one, and if equal the data is as read. */
  predicate Behind(u: Session, m: map<nat, Stored>) {
    u.id in m ==> u.expected <= m[u.id].version && (u.expected == m[u.id].version ==> u.data == m[u.id].data)
  }

  predicate Apart(s: State) {
    forall id :: id in s.live ==> id in s.seen && id !in s.trash
  }

  predicate Known(s: State) {
    forall id :: id in s.trash ==> id in s.seen
  }

  predicate SessionsBehind(s: State) {
    forall t :: t in s.open ==> s.open[t].id in s.seen && Behind(s.open[t], s.live) && Behind(s.open[t], s.trash)
  }

  predicate Inv(s: State) {
    Apart(s) && Known(s) && AllSound(s.live) && AllSound(s.trash) && SessionsBehind(s)
  }

  lemma WrittenSound(r: Stored, newData: Record)
    requires Sound(r)
    ensures Sound(Written(r, r.data, newData))
  {
  }

  lemma CommitKeeps(s: State, t: nat, change: Change)
    requires Inv(s) && Wins(s, t)
    ensures Inv(Apply(s, Commit(t, change)))
  {
    hide Sound, Written;
    var u := s.open[t];
    assert Behind(u, s.live);
    WrittenSound(s.live[u.id], change(u.data));
    WrittenVersion(s.live[u.id], u.data, change(u.data));
  }

  lemma RemoveKeeps(s: State, id: nat)
    requires Inv(s) && Succeeds(s, Remove(id))
    ensures Inv(Apply(s, Remove(id)))
  {
    hide Sound;
    forall t | t in s.open ensures Behind(s.open[t], s.trash[id := s.live[id]]) && Behind(s.open[t], s.live - {id}) {
      assert Behind(s.open[t], s.live) && Behind(s.open[t], s.trash);
    }
  }

  lemma RestoreKeeps(s: State, id: nat)
    requires Inv(s) && Succeeds(s, Restore(id))
    ensures Inv(Apply(s, Restore(id)))
  {
    hide Sound;
    RestoredSound(s.trash[id]);
  }

  lemma CreateKeeps(s: State, id: nat, data: Record)
    requires Inv(s) && id !in s.seen
    ensures Inv(Apply(s, Create(id, data)))
  {
    hide Sound;
    NewSound(data);
  }

  /** Every step keeps the store consistent. */
  lemma StepKeeps(s: State, op: Op)
    requires Inv(s)
    ensures Inv(Apply(s, op))
  {
    hide Sound, Written;
    if Succeeds(s, op) {
      match op
      case Create(id, data) => CreateKeeps(s, id, data);
      case Commit(t, change) => CommitKeeps(s, t, change);
      case Remove(id) => RemoveKeeps(s, id);
      case Restore(id) => RestoreKeeps(s, id);
      case _ =>
    }
  }

  lemma NewSound(data: Record)
    ensures Sound(Stored(data, 1, []))
  {
  }

  lemma RestoredSound(r: Stored)
    requires Sound(r)
    ensures Sound(Restored(r))
  {
  }

  lemma WrittenVersion(r: Stored, read: Record, newData: Record)
    ensures Written(r, read, newData).version == r.version + 1
  {
  }

  /** The store is consistent after every run: an id is never both live and in the trash, and histories chain. */
  lemma {:induction false} RunKeeps(s: State, ops: seq<Op>)
    requires Inv(s)
    ensures Inv(Run(s, ops))
    decreases |ops|
  {
    hide Inv, Apply;
    if ops != [] {
      StepKeeps(s, ops[0]);
      RunKeeps(Apply(s, ops[0]), ops[1..]);
    }
  }

  lemma StartsConsistent()
    ensures Inv(EMPTY_STORE)
  {
  }

  // ----- one winner a version -----

  /** A successful update of record `id` that expected version `version`. */
  datatype Win = Win(id: nat, version: nat)

  /** The successful updates of a run, in order. */
  function Winners(s: State, ops: seq<Op>): seq<Win>
    decreases |ops|
  {
    if ops == [] then []
    else
      (if ops[0].Commit? && Succeeds(s, ops[0])
       then [Win(s.open[ops[0].session].id, s.open[ops[0].session].expected)] else [])
      + Winners(Apply(s, ops[0]), ops[1..])
  }

  /** Whether version `w.version` of the record could still be updated, now or later. */
  predicate Winnable(s: State, w: Win) {
    if w.id in s.live then w.version >= s.live[w.id].version
    else if w.id in s.trash then w.version > s.trash[w.id].version
    else w.id !in s.seen
  }

  /** What cannot be won before a step cannot be won after it. */
  lemma WinnableBefore(s: State, op: Op, w: Win)
    requires Inv(s) && Winnable(Apply(s, op), w)
    ensures Winnable(s, w)
  {
    hide Sound, SessionsBehind;
  }

  lemma WonOnce(s: State, op: Op)
    requires Inv(s) && op.Commit? && Succeeds(s, op)
    ensures var w := Win(s.open[op.session].id, s.open[op.session].expected);
      Winnable(s, w) && !Winnable(Apply(s, op), w)
  {
  }

  lemma {:induction false} WinsAreWinnable(s: State, ops: seq<Op>, k: nat)
    requires Inv(s) && k < |Winners(s, ops)|
    ensures Winnable(s, Winners(s, ops)[k])
    decreases |ops|
  {
    hide Inv, Apply, Winnable, Succeeds;
    if ops != [] {
      var op := ops[0];
      var later := Winners(Apply(s, op), ops[1..]);
      var j := if op.Commit? && Succeeds(s, op) then k - 1 else k;
      if op.Commit? && Succeeds(s, op) { WonOnce(s, op); }
      if j >= 0 {
        StepKeeps(s, op);
        assert Winners(s, ops)[k] == later[j];
        WinsAreWinnable(Apply(s, op), ops[1..], j);
        WinnableBefore(s, op, later[j]);
      }
    }
  }

  /** However reads and commits interleave, a version of a record is updated at most once. */
  lemma {:induction false} OneWinner(s: State, ops: seq<Op>, i: nat, j: nat)
    requires Inv(s) && i < j < |Winners(s, ops)|
    ensures Winners(s, ops)[i] != Winners(s, ops)[j]
    decreases |ops|
  {
    hide Inv, Apply, Winnable, Succeeds;
    var op := ops[0];
    var later := Winners(Apply(s, op), ops[1..]);
    StepKeeps(s, op);
    if op.Commit? && Succeeds(s, op) {
      WonOnce(s, op);
      assert Winners(s, ops)[j] == later[j - 1];
      WinsAreWinnable(Apply(s, op), ops[1..], j - 1);
      if i > 0 { OneWinner(Apply(s, op), ops[1..], i - 1, j - 1); }
    } else {
      OneWinner(Apply(s, op), ops[1..], i, j);
    }
  }

  /** Once a record has been removed, no version from before the removal is ever accepted again. */
  lemma NoVersionFromBefore(s: State, id: nat, ops: seq<Op>, k: nat)
    requires Inv(s) && Succeeds(s, Remove(id)) && k < |Winners(Apply(s, Remove(id)), ops)|
    ensures var w := Winners(Apply(s, Remove(id)), ops)[k]; w.id == id ==> w.version > s.live[id].version
  {
    hide Inv;
    StepKeeps(s, Remove(id));
    WinsAreWinnable(Apply(s, Remove(id)), ops, k);
  }

  /** A removed record that has been purged is never written again. */
  lemma NothingAfterPurge(s: State, id: nat, ops: seq<Op>, k: nat)
    requires Inv(s) && Succeeds(s, Purge(id)) && k < |Winners(Apply(s, Purge(id)), ops)|
    ensures Winners(Apply(s, Purge(id)), ops)[k].id != id
  {
    hide Sound, SessionsBehind, Behind;
    StepKeeps(s, Purge(id));
    WinsAreWinnable(Apply(s, Purge(id)), ops, k);
  }

  // ----- the same as one operation after the other -----

  /** The contents, without versions, histories and sessions. */
  datatype Contents = Contents(live: map<nat, Record>, trash: map<nat, Record>)

  function Datas(m: map<nat, Stored>): map<nat, Record> {
    map id | id in m :: m[id].data
  }

  function ContentsOf(s: State): Contents {
    Contents(Datas(s.live), Datas(s.trash))
  }

  /** An operation that takes effect at once. */
  datatype Event =
    | Added(id: nat, data: Record)
    | Changed(id: nat, change: Change)
    | Trashed(id: nat)
    | Returned(id: nat)
    | Gone(id: nat)

  function Effect(c: Contents, e: Event): Contents {
    match e
    case Added(id, data) => c.(live := c.live[id := data])
    case Changed(id, change) => if id in c.live then c.(live := c.live[id := change(c.live[id])]) else c
    case Trashed(id) => if id in c.live then Contents(c.live - {id}, c.trash[id := c.live[id]]) else c
    case Returned(id) => if id in c.trash then Contents(c.live[id := c.trash[id]], c.trash - {id}) else c
    case Gone(id) => c.(trash := c.trash - {id})
  }

  function Effects(c: Contents, events: seq<Event>): Contents
    decreases |events|
  {
    if events == [] then c else Effects(Effect(c, events[0]), events[1..])
  }

  /** The operation a step stands for; a refused step, a read and an abandoned update stand for none. */
  function EventOf(s: State, op: Op): seq<Event> {
    if !Succeeds(s, op) then []
    else match op
      case Create(id, data) => [Added(id, data)]
      case Commit(t, change) => [Changed(s.open[t].id, change)]
      case Remove(id) => [Trashed(id)]
      case Restore(id) => [Returned(id)]
      case Purge(id) => [Gone(id)]
      case _ => []
  }

  function Events(s: State, ops: seq<Op>): seq<Event>
    decreases |ops|
  {
    if ops == [] then [] else EventOf(s, ops[0]) + Events(Apply(s, ops[0]), ops[1..])
  }

  lemma CommitReadsCurrent(s: State, t: nat)
    requires Inv(s) && Wins(s, t)
    ensures s.open[t].data == s.live[s.open[t].id].data
  {
    assert Behind(s.open[t], s.live);
  }

  lemma DatasPut(m: map<nat, Stored>, id: nat, r: Stored)
    ensures Datas(m[id := r]) == Datas(m)[id := r.data]
  {
  }

  lemma DatasDrop(m: map<nat, Stored>, id: nat)
    ensures Datas(m - {id}) == Datas(m) - {id}
  {
  }

  lemma DatasAt(m: map<nat, Stored>, id: nat)
    ensures id in Datas(m) <==> id in m
    ensures id in m ==> Datas(m)[id] == m[id].data
  {
  }

  lemma StepIsAtomic(s: State, op: Op)
    requires Inv(s)
    ensures ContentsOf(Apply(s, op)) == Effects(ContentsOf(s), EventOf(s, op))
  {
    hide Inv, Datas, Effects;
    EffectsOne(ContentsOf(s), EventOf(s, op));
    if Succeeds(s, op) {
      match op
      case Create(id, data) => DatasPut(s.live, id, Stored(data, 1, []));
      case Commit(t, change) =>
        var u := s.open[t];
        CommitReadsCurrent(s, t);
        DatasAt(s.live, u.id);
        DatasPut(s.live, u.id, Written(s.live[u.id], u.data, change(u.data)));
      case Remove(id) =>
        DatasAt(s.live, id);
        DatasDrop(s.live, id);
        DatasPut(s.trash, id, s.live[id]);
      case Restore(id) =>
        DatasAt(s.trash, id);
        DatasDrop(s.trash, id);
        DatasPut(s.live, id, Restored(s.trash[id]));
      case Purge(id) => DatasDrop(s.trash, id);
      case _ =>
    }
  }

  lemma EffectsOne(c: Contents, events: seq<Event>)
    requires |events| <= 1
    ensures Effects(c, events) == if events == [] then c else Effect(c, events[0])
  {
  }

  lemma {:induction false} EffectsAppend(c: Contents, a: seq<Event>, b: seq<Event>)
    ensures Effects(c, a + b) == Effects(Effects(c, a), b)
    decreases |a|
  {
    hide Effect;
    if a == [] {
      assert a + b == b;
    } else {
      assert (a + b)[1..] == a[1..] + b;
      EffectsAppend(Effect(c, a[0]), a[1..], b);
    }
  }

  /**
   No update is lost: every interleaved run leaves what its successful operations leave when each is
   carried out at once, at the moment of its commit, on the data of that moment.
   */
  lemma {:induction false} RunIsAtomic(s: State, ops: seq<Op>)
    requires Inv(s)
    ensures ContentsOf(Run(s, ops)) == Effects(ContentsOf(s), Events(s, ops))
    decreases |ops|
  {
    hide Inv, Apply, ContentsOf, EventOf;
    if ops != [] {
      StepKeeps(s, ops[0]);
      StepIsAtomic(s, ops[0]);
      RunIsAtomic(Apply(s, ops[0]), ops[1..]);
      EffectsAppend(ContentsOf(s), EventOf(s, ops[0]), Events(Apply(s, ops[0]), ops[1..]));
    }
  }

  // ----- when an update goes through -----

  /** The step takes the record out of the version it is in. */
  predicate Disturbs(s: State, op: Op, id: nat) {
    Succeeds(s, op) && ((op.Commit? && s.open[op.session].id == id) || (op.Remove? && op.id == id))
  }

  predicate Undisturbed(s: State, ops: seq<Op>, id: nat)
    decreases |ops|
  {
    ops == [] || (!Disturbs(s, ops[0], id) && Undisturbed(Apply(s, ops[0]), ops[1..], id))
  }

  /** None of the steps belongs to the session. */
  predicate LeavesAlone(ops: seq<Op>, t: nat) {
    forall k :: 0 <= k < |ops| ==>
      !((ops[k].Commit? || ops[k].Abandon? || ops[k].Read?) && ops[k].session == t)
  }

  predicate Holds(s: State, t: nat, u: Session) {
    t in s.open && s.open[t] == u
  }

  lemma StillHolds(s: State, op: Op, t: nat, u: Session)
    requires Holds(s, t, u) && !((op.Commit? || op.Abandon? || op.Read?) && op.session == t)
    ensures Holds(Apply(s, op), t, u)
  {
  }

  lemma DisturbedForGood(s: State, op: Op, id: nat, version: nat)
    requires Inv(s) && Disturbs(s, op, id) && id in s.live && s.live[id].version == version
    ensures !Winnable(Apply(s, op), Win(id, version))
  {
    hide Sound, SessionsBehind;
  }

  lemma UndisturbedStays(s: State, op: Op, id: nat)
    requires Inv(s) && id in s.live && !Disturbs(s, op, id)
    ensures var r := Apply(s, op); id in r.live && r.live[id] == s.live[id]
  {
    hide Sound, SessionsBehind;
  }

  lemma {:induction false} NeverAgain(s: State, ops: seq<Op>, w: Win)
    requires Inv(s) && !Winnable(s, w)
    ensures !Winnable(Run(s, ops), w)
    decreases |ops|
  {
    hide Inv, Apply, Winnable;
    if ops != [] {
      StepKeeps(s, ops[0]);
      if Winnable(Apply(s, ops[0]), w) { WinnableBefore(s, ops[0], w); }
      NeverAgain(Apply(s, ops[0]), ops[1..], w);
    }
  }

  /** An update that has passed its read goes through exactly when no other update or removal of the record has come between. */
  lemma {:induction false} CommitsExactly(s: State, ops: seq<Op>, t: nat, u: Session)
    requires Inv(s) && Holds(s, t, u) && Wins(s, t) && LeavesAlone(ops, t)
    ensures Wins(Run(s, ops), t) <==> Undisturbed(s, ops, u.id)
    decreases |ops|
  {
    hide Inv, Apply, Disturbs, LeavesAlone;
    if ops != [] {
      var op, rest := ops[0], ops[1..];
      var next := Apply(s, op);
      LeavesLater(ops, t);
      StepKeeps(s, op);
      StillHolds(s, op, t, u);
      if Disturbs(s, op, u.id) {
        DisturbedForGood(s, op, u.id, u.expected);
        NeverAgain(next, rest, Win(u.id, u.expected));
        RunHolds(next, rest, t, u);
      } else {
        UndisturbedStays(s, op, u.id);
        CommitsExactly(next, rest, t, u);
      }
    }
  }

  lemma LeavesLater(ops: seq<Op>, t: nat)
    requires ops != [] && LeavesAlone(ops, t)
    ensures LeavesAlone(ops[1..], t) && !((ops[0].Commit? || ops[0].Abandon? || ops[0].Read?) && ops[0].session == t)
  {
  }

  lemma {:induction false} RunHolds(s: State, ops: seq<Op>, t: nat, u: Session)
    requires Holds(s, t, u) && LeavesAlone(ops, t)
    ensures Holds(Run(s, ops), t, u)
    decreases |ops|
  {
    hide Apply, LeavesAlone;
    if ops != [] {
      LeavesLater(ops, t);
      StillHolds(s, ops[0], t, u);
      RunHolds(Apply(s, ops[0]), ops[1..], t, u);
    }
  }

  // ----- the service -----

  class RecordsService {
    var live: map<nat, Stored>
    var trash: map<nat, Stored>
    ghost var state: State  // the tables, with the updates that are under way and the ids given out

    ghost predicate Valid()
      reads this
    {
      live == state.live && trash == state.trash && Inv(state)
    }

    constructor ()
      ensures Valid() && state == EMPTY_STORE
    {
      live, trash := map[], map[];
      state := EMPTY_STORE;
      new;
      StartsConsistent();
    }

    method AddRecord(id: nat, data: Record)
      requires Valid() && id !in state.seen
      modifies this
      ensures Valid() && state == Apply(old(state), Create(id, data))
    {
      StepKeeps(state, Create(id, data));
      hide Inv;
      live := live[id := Stored(data, 1, [])];
      state := Apply(state, Create(id, data));
    }

    /** The first half of an update: everything before its transaction. */
    method BeginUpdate(ghost session: nat, id: nat, expected: nat) returns (r: Outcome, read: Record)
      requires Valid() && session !in state.open
      modifies this
      ensures Valid() && state == Apply(old(state), Read(session, id, expected))
      ensures r == if id !in old(live) then NotFound else if old(live)[id].version == expected then Done else Conflict
      ensures r == Done ==> Holds(state, session, Session(id, expected, read))
    {
      StepKeeps(state, Read(session, id, expected));
      hide Inv;
      read := map[];
      if id !in live { return NotFound, read; }
      if live[id].version != expected { return Conflict, read; }
      r, read := Done, live[id].data;
      state := Apply(state, Read(session, id, expected));
    }

    /** The transaction of an update: writes only where id and version match, and adds to the history. */
    method CommitUpdate(ghost session: nat, id: nat, expected: nat, read: Record, change: Change) returns (r: Outcome)
      requires Valid() && Holds(state, session, Session(id, expected, read))
      modifies this
      ensures Valid() && state == Apply(old(state), Commit(session, change))
      ensures r == if id in old(live) && old(live)[id].version == expected then Done else Conflict
    {
      StepKeeps(state, Commit(session, change));
      hide Inv;
      var data := change(read);
      var changed := id in live && live[id].version == expected;
      ghost var before := state;
      state := Apply(state, Commit(session, change));
      if !changed { return Conflict; }
      var row := live[id];
      row := row.(data := data, version := row.version + 1);
      row := row.(histories := row.histories + [Entry(read, data)]);
      live := live[id := row];
      r := Done;
    }

    method RemoveRecord(id: nat) returns (r: Outcome)
      requires Valid()
      modifies this
      ensures Valid() && state == Apply(old(state), Remove(id))
      ensures r == if id in old(live) then Done else NotFound
    {
      StepKeeps(state, Remove(id));
      assert id in live ==> id !in trash;
      hide Inv;
      if id !in live { return NotFound; }
      trash := trash[id := live[id]];
      live := live - {id};
      state := Apply(state, Remove(id));
      r := Done;
    }

    method RestoreTrash(id: nat) returns (r: Outcome)
      requires Valid()
      modifies this
      ensures Valid() && state == Apply(old(state), Restore(id))
      ensures r == if id in old(trash) then Done else NotFound
    {
      StepKeeps(state, Restore(id));
      assert id in trash ==> id !in live;
      hide Inv;
      if id !in trash { return NotFound; }
      if id in live { return Conflict; }
      live := live[id := trash[id].(version := trash[id].version + 1)];
      trash := trash - {id};
      state := Apply(state, Restore(id));
      r := Done;
    }

    method PurgeTrash(id: nat) returns (r: Outcome)
      requires Valid()
      modifies this
      ensures Valid() && state == Apply(old(state), Purge(id))
      ensures r == if id in old(trash) then Done else NotFound
    {
      StepKeeps(state, Purge(id));
      hide Inv;
      if id !in trash { return NotFound; }
      trash := trash - {id};
      state := Apply(state, Purge(id));
      r := Done;
    }
  }
}
