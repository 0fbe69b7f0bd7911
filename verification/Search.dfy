/** Semantic search: candidates by visible app and document, then three filters for single records. */
module Search {
  import opened Forest
  import opened Permissions
  import opened Values

  datatype Source = FromRecord | FromDocument

  /** A row of the vector index. */
  datatype Embedding = Embedding(source: Source, appId: Option<Id>, recordId: Option<Id>, docId: Option<Id>)

  datatype Mode = Both | RecordsOnly | KnowledgeOnly

  datatype Options = Options(mode: Mode, appId: Option<Id>, docId: Option<Id>)

  /** A set of ids, or everything. */
  type Ids = Option<set<Id>>

  predicate InIds(ids: Ids, id: Option<Id>) {
    ids.None? || (id.Some? && id.value in ids.value)
  }

  // ----- candidates -----

  /** An empty id counts as not given. */
  predicate Given(id: Option<Id>) {
    id.Some? && id.value != ""
  }

  predicate RecordCandidate(apps: Ids, opts: Options, e: Embedding) {
    && e.source.FromRecord?
    && if Given(opts.appId) then e.appId == (if InIds(apps, opts.appId) then opts.appId else Some(NO_ID))
       else InIds(apps, e.appId)
  }

  predicate DocCandidate(docs: Ids, opts: Options, e: Embedding) {
    && e.source.FromDocument?
    && if Given(opts.docId) then e.docId == (if InIds(docs, opts.docId) then opts.docId else Some(NO_ID))
       else InIds(docs, e.docId)
  }

  predicate Candidate(apps: Ids, docs: Ids, opts: Options, e: Embedding) {
    if Given(opts.docId) then DocCandidate(docs, opts, e)
    else match opts.mode
      case RecordsOnly => RecordCandidate(apps, opts, e)
      case KnowledgeOnly => DocCandidate(docs, opts, e)
      case Both => RecordCandidate(apps, opts, e) || DocCandidate(docs, opts, e)
  }

  method CandidateRows(index: seq<Embedding>, apps: Ids, docs: Ids, opts: Options) returns (rows: seq<Embedding>)
    ensures forall e :: e in rows <==> e in index && Candidate(apps, docs, opts, e)
  {
    rows := [];
    for n := 0 to |index|
      invariant forall e :: e in rows <==> e in index[..n] && Candidate(apps, docs, opts, e)
    {
      if Candidate(apps, docs, opts, index[n]) { rows := rows + [index[n]]; }
    }
  }

  // ----- the filters -----

  predicate Narrow(scope: string) {
    scope == "owner" || scope == "org"
  }

  /** Whose records of the app the view scope lets the user see. */
  ghost function InScope(w: World, user: Id, app: Id): set<Id>
    requires app in w.apps
  {
    if w.apps[app].viewScope == "org" then OrgUsers(w, user) else {user}
  }

  predicate IsRestricted(w: World, user: Id, visible: Ids, a: Id) {
    a in w.apps && Narrow(w.apps[a].viewScope) && InIds(visible, Some(a)) && w.apps[a].createdBy != user
  }

  /** For each visible app with a narrow view scope that is not the user's: whose records may be shown. */
  ghost function Restricted(w: World, user: Id, role: string, visible: Ids): map<Id, set<Id>> {
    if role == ADMIN then map[]
    else map a | a in w.apps && IsRestricted(w, user, visible, a) :: InScope(w, user, a)
  }

  method RestrictedAppCreators(w: World, user: Id, role: string, visible: Ids) returns (r: map<Id, set<Id>>)
    ensures r == Restricted(w, user, role, visible)
  {
    hide OrgUsers, Narrow, InIds;
    r := map[];
    if role == ADMIN { return; }
    var apps := set a | a in w.apps && Narrow(w.apps[a].viewScope) && InIds(visible, Some(a));
    ghost var all := apps;
    var orgIds: Option<set<Id>> := None;
    while apps != {}
      invariant apps <= all
      invariant orgIds.Some? ==> orgIds.value == OrgUsers(w, user)
      invariant forall a :: a in r <==> a in all && a !in apps && w.apps[a].createdBy != user
      invariant forall a :: a in r ==> r[a] == InScope(w, user, a)
      decreases |apps|
    {
      var a :| a in apps;
      apps := apps - {a};
      if w.apps[a].createdBy != user {
        if w.apps[a].viewScope == "org" {
          if orgIds.None? {
            var ids := OrgScopedUserIds(w, user);
            orgIds := Some(ids);
          }
          r := r[a := orgIds.value];
        } else {
          r := r[a := {user}];
        }
      }
    }
  }

  /** The creator of the record is among those allowed in its app. */
  predicate CreatorOk(records: Records, restricted: map<Id, set<Id>>, id: Id) {
    id in records && records[id].appId in restricted && records[id].createdBy in restricted[records[id].appId]
  }

  /** `recordOkSet`, for the records it is asked about. */
  method RecordOkSet(records: Records, scored: seq<Embedding>, restricted: map<Id, set<Id>>) returns (ok: set<Id>)
    ensures forall e :: e in scored && e.source.FromRecord? && e.appId.Some?
                        && e.appId.value in restricted && e.recordId.Some? ==>
      (e.recordId.value in ok <==> CreatorOk(records, restricted, e.recordId.value))
  {
    ok := {};
    for n := 0 to |scored|
      invariant forall id :: id in ok ==> CreatorOk(records, restricted, id)
      invariant forall k :: 0 <= k < n && scored[k].source.FromRecord? && scored[k].appId.Some?
                            && scored[k].appId.value in restricted && scored[k].recordId.Some? ==>
        (scored[k].recordId.value in ok <==> CreatorOk(records, restricted, scored[k].recordId.value))
    {
      var e := scored[n];
      if e.source.FromRecord? && e.appId.Some? && e.appId.value in restricted && e.recordId.Some?
         && CreatorOk(records, restricted, e.recordId.value) {
        ok := ok + {e.recordId.value};
      }
    }
  }

  /** The record names an employee the user does not answer for. */
  ghost predicate Blocked(w: World, h: Host, records: Records, user: Id, role: string, id: Id) {
    && id in records
    && var scope := ScopeOf(w, records[id].appId, user, role, false);
       scope.Some? && FieldText(h, records[id].data, scope.value.field) !in scope.value.users
  }

  predicate OfRecord(e: Embedding) {
    e.source.FromRecord? && e.appId.Some? && e.recordId.Some?
  }

  /** Every row of a record that still exists carries the record's app. */
  predicate Consistent(records: Records, rows: seq<Embedding>) {
    forall k :: 0 <= k < |rows| && rows[k].source.FromRecord?
                && rows[k].recordId.Some? && rows[k].recordId.value in records ==>
      rows[k].appId == Some(records[rows[k].recordId.value].appId)
  }

  method FieldScopeBlockedRecordIds(w: World, h: Host, records: Records, scored: seq<Embedding>, user: Id, role: string)
    returns (blocked: set<Id>)
    ensures forall id :: id in blocked ==> Blocked(w, h, records, user, role, id)
    ensures Consistent(records, scored) ==>
      forall k :: 0 <= k < |scored| && OfRecord(scored[k]) ==>
        (scored[k].recordId.value in blocked <==> Blocked(w, h, records, user, role, scored[k].recordId.value))
  {
    hide ScopeOf, FieldText;
    var scopes: map<Id, Option<FieldScope>> := map[];
    for n := 0 to |scored|
      invariant forall a :: a in scopes ==> scopes[a] == ScopeOf(w, a, user, role, false)
      invariant forall k :: 0 <= k < n && OfRecord(scored[k]) ==> scored[k].appId.value in scopes
    {
      if OfRecord(scored[n]) && scored[n].appId.value !in scopes {
        var scope := RecordFieldScope(w, scored[n].appId.value, user, role, false);
        scopes := scopes[scored[n].appId.value := scope];
      }
    }
    blocked := {};
    for n := 0 to |scored|
      invariant forall id :: id in blocked ==> Blocked(w, h, records, user, role, id)
      invariant Consistent(records, scored) ==>
        forall k :: 0 <= k < n && OfRecord(scored[k]) ==>
          (scored[k].recordId.value in blocked <==> Blocked(w, h, records, user, role, scored[k].recordId.value))
    {
      var e := scored[n];
      if OfRecord(e) && e.recordId.value in records {
        var r := records[e.recordId.value];
        var scope := if r.appId in scopes then scopes[r.appId] else None;
        if scope.Some? && FieldText(h, r.data, scope.value.field) !in scope.value.users {
          blocked := blocked + {e.recordId.value};
        }
      }
    }
  }

  // ----- the hits -----

  /** What is left of the ranked rows after the filters. */
  ghost predicate Passes(w: World, h: Host, records: Records, user: Id, role: string, visible: Ids, e: Embedding) {
    e.source.FromRecord? ==>
      var restricted := Restricted(w, user, role, visible);
      && (e.appId.Some? && e.appId.value in restricted ==>
          e.recordId.Some? && CreatorOk(records, restricted, e.recordId.value))
      && (e.recordId.Some? ==> !Blocked(w, h, records, user, role, e.recordId.value))
  }

  /** Rows of the same record, or of the same document, are one hit. */
  function KeyOf(e: Embedding): (bool, Option<Id>) {
    if e.source.FromRecord? then (true, e.recordId) else (false, e.docId)
  }

  /**
   A passing row of a visible app has a record that the single-record route shows, exactly unless the two
   visibility rules differ for the app; and every record the route shows passes, to those without the right
   to manage an app of others.
   */
  lemma PassesExactly(w: World, h: Host, records: Records, user: Id, role: string, e: Embedding)
    requires e.source.FromRecord? && e.recordId.Some? && e.recordId.value in records
    requires e.appId == Some(records[e.recordId.value].appId) && e.appId.value in w.apps
    ensures var visible := Visible(w, user, role);
      var rights := Effective(w, user, role, e.appId.value).value;
      && (InIds(visible, e.appId) && Passes(w, h, records, user, role, visible, e)
          ==> (RouteShows(w, h, records, user, role, e.recordId.value) <==> !Differs(w, user, role, e.appId.value)))
      && (RouteShows(w, h, records, user, role, e.recordId.value)
          && (rights.canManage ==> role == ADMIN || w.apps[e.appId.value].createdBy == user)
          ==> InIds(visible, e.appId) && Passes(w, h, records, user, role, visible, e))
  {
    hide OrgUsers, FieldText, Visible;
    VisibleExactly(w, user, role, e.appId.value);
  }

  function KeysOf(hits: seq<Embedding>): set<(bool, Option<Id>)> {
    if hits == [] then {} else KeysOf(hits[..|hits| - 1]) + {KeyOf(hits[|hits| - 1])}
  }

  lemma {:induction false} KeysHold(hits: seq<Embedding>, e: Embedding)
    ensures KeyOf(e) in KeysOf(hits) <==> exists b :: b in hits && KeyOf(b) == KeyOf(e)
  {
    hide KeyOf;
    if hits != [] {
      var n := |hits| - 1;
      KeysHold(hits[..n], e);
      assert hits == hits[..n] + [hits[n]];
    }
  }

  lemma KeysNone()
    ensures KeysOf([]) == {}
  {
  }

  lemma KeysSnoc(hits: seq<Embedding>, e: Embedding)
    ensures KeysOf(hits + [e]) == KeysOf(hits) + {KeyOf(e)}
  {
    assert (hits + [e])[..|hits|] == hits;
  }

  /** The first `k` different hits among the ranked rows that pass. */
  ghost function Hits(w: World, h: Host, records: Records, user: Id, role: string, visible: Ids,
                      ranked: seq<Embedding>, k: nat): seq<Embedding> {
    if ranked == [] then []
    else
      var before := Hits(w, h, records, user, role, visible, ranked[..|ranked| - 1], k);
      var e := ranked[|ranked| - 1];
      if |before| < k && Passes(w, h, records, user, role, visible, e) && KeyOf(e) !in KeysOf(before)
      then before + [e] else before
  }

  lemma {:induction false} HitsPass(w: World, h: Host, records: Records, user: Id, role: string, visible: Ids,
                                    ranked: seq<Embedding>, k: nat)
    ensures var hits := Hits(w, h, records, user, role, visible, ranked, k);
      && |hits| <= k
      && (forall e :: e in hits ==> e in ranked && Passes(w, h, records, user, role, visible, e))
      && (forall i, j :: 0 <= i < j < |hits| ==> KeyOf(hits[i]) != KeyOf(hits[j]))
  {
    hide Passes, KeyOf;
    if ranked != [] {
      var n := |ranked| - 1;
      HitsPass(w, h, records, user, role, visible, ranked[..n], k);
      KeysHold(Hits(w, h, records, user, role, visible, ranked[..n], k), ranked[n]);
    }
  }

  /** The rows in the order of their score, at most sixty of them: some choice of the candidates. */
  ghost predicate RankedFrom(ranked: seq<Embedding>, rows: seq<Embedding>) {
    forall e :: e in ranked ==> e in rows
  }

  method PickHits(w: World, h: Host, records: Records, user: Id, role: string, visible: Ids, ranked: seq<Embedding>,
                  k: nat)
    returns (hits: seq<Embedding>)
    requires Consistent(records, ranked) && k > 0
    ensures hits == Hits(w, h, records, user, role, visible, ranked, k)
  {
    hide Restricted, Blocked, CreatorOk, Consistent, Passes, KeyOf, KeysOf;
    KeysNone();
    var restricted := RestrictedAppCreators(w, user, role, visible);
    var ok := RecordOkSet(records, ranked, restricted);
    var blocked := FieldScopeBlockedRecordIds(w, h, records, ranked, user, role);
    var seen: set<(bool, Option<Id>)> := {};
    hits := [];
    for n := 0 to |ranked|
      invariant hits == Hits(w, h, records, user, role, visible, ranked[..n], k)
      invariant |hits| < k
      invariant seen == KeysOf(hits)
    {
      assert ranked[..n + 1][..n] == ranked[..n];
      var e := ranked[n];
      if KeyOf(e) in seen { continue; }
      BlockedExactly(w, h, records, user, role, blocked, ranked, n);
      FiltersPass(w, h, records, user, role, visible, restricted, ok, blocked, e);
      if e.source.FromRecord? && e.appId.Some? && e.appId.value in restricted
         && !(e.recordId.Some? && e.recordId.value in ok) { continue; }
      if e.source.FromRecord? && e.recordId.Some? && e.recordId.value in blocked { continue; }
      seen := seen + {KeyOf(e)};
      KeysSnoc(hits, e);
      hits := hits + [e];
      if |hits| >= k {
        HitsFull(w, h, records, user, role, visible, ranked, n + 1, k);
        return;
      }
    }
    assert ranked[..|ranked|] == ranked;
  }

  lemma BlockedExactly(w: World, h: Host, records: Records, user: Id, role: string, blocked: set<Id>,
                       ranked: seq<Embedding>, n: nat)
    requires n < |ranked| && Consistent(records, ranked)
    requires forall id :: id in blocked ==> Blocked(w, h, records, user, role, id)
    requires OfRecord(ranked[n]) ==>
      (ranked[n].recordId.value in blocked <==> Blocked(w, h, records, user, role, ranked[n].recordId.value))
    ensures ranked[n].source.FromRecord? && ranked[n].recordId.Some? ==>
      (ranked[n].recordId.value in blocked <==> Blocked(w, h, records, user, role, ranked[n].recordId.value))
  {
    hide ScopeOf, FieldText;
  }

  lemma FiltersPass(w: World, h: Host, records: Records, user: Id, role: string, visible: Ids,
                    restricted: map<Id, set<Id>>, ok: set<Id>, blocked: set<Id>, e: Embedding)
    requires restricted == Restricted(w, user, role, visible)
    requires e.source.FromRecord? && e.appId.Some? && e.appId.value in restricted && e.recordId.Some? ==>
      (e.recordId.value in ok <==> CreatorOk(records, restricted, e.recordId.value))
    requires e.source.FromRecord? && e.recordId.Some? ==>
      (e.recordId.value in blocked <==> Blocked(w, h, records, user, role, e.recordId.value))
    ensures Passes(w, h, records, user, role, visible, e) <==>
      && !(e.source.FromRecord? && e.appId.Some? && e.appId.value in restricted
           && !(e.recordId.Some? && e.recordId.value in ok))
      && !(e.source.FromRecord? && e.recordId.Some? && e.recordId.value in blocked)
  {
    hide Restricted, Blocked, CreatorOk;
  }

  lemma {:induction false} HitsFull(w: World, h: Host, records: Records, user: Id, role: string, visible: Ids,
                                    ranked: seq<Embedding>, n: nat, k: nat)
    requires n <= |ranked| && |Hits(w, h, records, user, role, visible, ranked[..n], k)| >= k
    ensures Hits(w, h, records, user, role, visible, ranked, k) == Hits(w, h, records, user, role, visible, ranked[..n], k)
  {
    hide Passes, KeyOf;
    if n == |ranked| {
      assert ranked[..n] == ranked;
    } else {
      var m := |ranked| - 1;
      assert ranked[..m][..n] == ranked[..n];
      HitsFull(w, h, records, user, role, visible, ranked[..m], n, k);
    }
  }

  /**
   Every existing record that the search returns is one the single-record route shows to the same user,
   exactly unless the two visibility rules differ for its app.
   */
  lemma SearchRefinesRoute(w: World, h: Host, records: Records, user: Id, role: string, docs: Ids, opts: Options,
                           index: seq<Embedding>, rows: seq<Embedding>, ranked: seq<Embedding>, k: nat, e: Embedding)
    requires NO_ID !in w.apps && Consistent(records, index)
    requires forall id :: id in records ==> records[id].appId in w.apps
    requires forall r :: r in rows <==> r in index && Candidate(Visible(w, user, role), docs, opts, r)
    requires RankedFrom(ranked, rows)
    requires e in Hits(w, h, records, user, role, Visible(w, user, role), ranked, k)
    ensures e.source.FromRecord? && e.recordId.Some? && e.recordId.value in records
            ==> (RouteShows(w, h, records, user, role, e.recordId.value)
                 <==> !Differs(w, user, role, records[e.recordId.value].appId))
    ensures e.source.FromDocument? ==> InIds(docs, e.docId) || e.docId == Some(NO_ID)
  {
    hide Passes, RouteShows, Effective, Visible, Hits, Differs;
    HitsPass(w, h, records, user, role, Visible(w, user, role), ranked, k);
    if e.source.FromRecord? && e.recordId.Some? && e.recordId.value in records {
      assert e.appId == Some(records[e.recordId.value].appId);
      CandidateVisible(w, user, role, docs, opts, e);
      PassesExactly(w, h, records, user, role, e);
    }
  }

  lemma CandidateVisible(w: World, user: Id, role: string, docs: Ids, opts: Options, e: Embedding)
    requires Candidate(Visible(w, user, role), docs, opts, e) && e.source.FromRecord? && e.appId.Some?
    ensures InIds(Visible(w, user, role), e.appId) || e.appId.value == NO_ID
  {
  }

  // ----- which rows are candidates -----

  /** A row is searched exactly if its kind is asked for and what it belongs to may be seen, or is the one asked for. */
  lemma CandidateExactly(apps: Ids, docs: Ids, opts: Options, e: Embedding)
    ensures var oneApp, oneDoc := opts.appId.Some? && opts.appId.value != "", opts.docId.Some? && opts.docId.value != "";
      Candidate(apps, docs, opts, e) <==>
      match e.source
      case FromRecord =>
        && !oneDoc && opts.mode != KnowledgeOnly
        && (if !oneApp then apps.None? || (e.appId.Some? && e.appId.value in apps.value)
            else if apps.None? || opts.appId.value in apps.value then e.appId == opts.appId
            else e.appId == Some("__none__"))
      case FromDocument =>
        && (oneDoc || opts.mode != RecordsOnly)
        && (if !oneDoc then docs.None? || (e.docId.Some? && e.docId.value in docs.value)
            else if docs.None? || opts.docId.value in docs.value then e.docId == opts.docId
            else e.docId == Some("__none__"))
  {
  }

  // ----- which hits there are -----

  /** Rows of one record, or of one document. */
  predicate SameThing(e: Embedding, f: Embedding) {
    e.source == f.source && if e.source.FromRecord? then e.recordId == f.recordId else e.docId == f.docId
  }

  lemma SameKey(e: Embedding, f: Embedding)
    ensures SameThing(e, f) <==> KeyOf(e) == KeyOf(f)
  {
  }

  /** No two hits are of one record or document; every passing row has a hit of the same one, unless there are `k` hits. */
  lemma {:induction false} HitsExactly(w: World, h: Host, records: Records, user: Id, role: string, visible: Ids,
                                       ranked: seq<Embedding>, k: nat)
    ensures var hits := Hits(w, h, records, user, role, visible, ranked, k);
      && (forall i, j :: 0 <= i < j < |hits| ==> !SameThing(hits[i], hits[j]))
      && (|hits| < k ==> forall e :: e in ranked && Passes(w, h, records, user, role, visible, e) ==>
                           exists f :: f in hits && SameThing(e, f))
  {
    hide Passes, KeyOf, SameThing;
    forall e: Embedding, f: Embedding ensures SameThing(e, f) <==> KeyOf(e) == KeyOf(f) { SameKey(e, f); }
    if ranked != [] {
      var n := |ranked| - 1;
      var before := Hits(w, h, records, user, role, visible, ranked[..n], k);
      HitsExactly(w, h, records, user, role, visible, ranked[..n], k);
      KeysHold(before, ranked[n]);
      assert ranked == ranked[..n] + [ranked[n]];
    }
  }
}
