/** Who may do what: rights on an app, the apps a user sees, and the rules for single records. */
module Permissions {
  import opened Forest
  import opened GroupWalks
  import opened Values

  const ADMIN := "SystemAdmin"
  const VIEWER := "Viewer"
  const NO_ID := "__none__"

  /** An empty `scopeField` is one that is not set. */
  datatype App = App(createdBy: Id, viewScope: string, editScope: string, scopeField: string)

  datatype Right = View | Add | Edit | Delete | Manage

  datatype Rights = Rights(canView: bool, canAdd: bool, canEdit: bool, canDelete: bool, canManage: bool)

  datatype Permission = Permission(appId: Id, targetType: string, targetId: Option<Id>, rights: Rights)

  datatype World = World(apps: map<Id, App>, perms: seq<Permission>, users: map<Id, Option<Id>>, groups: Groups)

  const ALL := Rights(true, true, true, true, true)
  const NONE := Rights(false, false, false, false, false)

  predicate Has(r: Rights, right: Right) {
    match right
    case View => r.canView
    case Add => r.canAdd
    case Edit => r.canEdit
    case Delete => r.canDelete
    case Manage => r.canManage
  }

  function MyGroup(w: World, user: Id): Option<Id> {
    if user in w.users && w.users[user].Some? && w.users[user].value != "" then w.users[user] else None
  }

  // ----- rights on an app -----

  predicate Applies(w: World, user: Id, p: Permission) {
    || p.targetType == "All"
    || (p.targetType == "User" && p.targetId == Some(user))
    || (p.targetType == "Group" && p.targetId.Some? && p.targetId.value != "" && MyGroup(w, user) == p.targetId)
  }

  /** Some permission on the app that applies to the user gives the right. */
  ghost predicate Granted(w: World, user: Id, app: Id, right: Right) {
    exists k :: 0 <= k < |w.perms| && w.perms[k].appId == app && Applies(w, user, w.perms[k]) && Has(w.perms[k].rights, right)
  }

  /** `None` stands for an app that does not exist. */
  ghost function Effective(w: World, user: Id, role: string, app: Id): Option<Rights> {
    if role == ADMIN then Some(ALL)
    else if app !in w.apps then None
    else if w.apps[app].createdBy == user then Some(ALL)
    else
      var full := role != VIEWER;
      Some(Rights(
        Granted(w, user, app, View),
        full && Granted(w, user, app, Add),
        full && Granted(w, user, app, Edit),
        full && Granted(w, user, app, Delete),
        full && Granted(w, user, app, Manage)))
  }

  function Or(a: Rights, b: Rights): Rights {
    Rights(a.canView || b.canView, a.canAdd || b.canAdd, a.canEdit || b.canEdit, a.canDelete || b.canDelete,
           a.canManage || b.canManage)
  }

  method GetEffectivePermission(w: World, user: Id, role: string, app: Id) returns (r: Option<Rights>)
    ensures r == Effective(w, user, role, app)
  {
    if role == ADMIN { return Some(ALL); }
    if app !in w.apps { return None; }
    if w.apps[app].createdBy == user { return Some(ALL); }
    var result := NONE;
    for n := 0 to |w.perms|
      invariant forall right ::
                  Has(result, right) <==>
                  exists k :: 0 <= k < n && w.perms[k].appId == app && Applies(w, user, w.perms[k])
                           && Has(w.perms[k].rights, right)
    {
      var p := w.perms[n];
      if p.appId == app && Applies(w, user, p) {
        assert forall right :: Has(Or(result, p.rights), right) <==> Has(result, right) || Has(p.rights, right);
        result := Or(result, p.rights);
      }
    }
    assert forall right :: Has(result, right) <==> Granted(w, user, app, right);
    assert result == Rights(Has(result, View), Has(result, Add), Has(result, Edit), Has(result, Delete), Has(result, Manage));
    if role == VIEWER { result := NONE.(canView := result.canView); }
    r := Some(result);
  }

  // ----- the apps a user sees -----

  /** How the list query matches a permission: a user without department is looked up under a reserved id. */
  predicate Queried(w: World, user: Id, p: Permission) {
    && p.rights.canView
    && (|| p.targetType == "All"
        || (p.targetType == "User" && p.targetId == Some(user))
        || (p.targetType == "Group" && p.targetId == Some(if MyGroup(w, user).Some? then MyGroup(w, user).value else NO_ID)))
  }

  /** `None` stands for all apps. */
  function Visible(w: World, user: Id, role: string): Option<set<Id>> {
    if role == ADMIN then None
    else Some((set a | a in w.apps && w.apps[a].createdBy == user)
              + (set k | 0 <= k < |w.perms| && Queried(w, user, w.perms[k]) :: w.perms[k].appId))
  }

  method VisibleAppIds(w: World, user: Id, role: string) returns (r: Option<set<Id>>)
    ensures r == Visible(w, user, role)
  {
    if role == ADMIN { return None; }
    var ids := set a | a in w.apps && w.apps[a].createdBy == user;
    ghost var owned := ids;
    for n := 0 to |w.perms|
      invariant ids == owned + (set k | 0 <= k < n && Queried(w, user, w.perms[k]) :: w.perms[k].appId)
    {
      if Queried(w, user, w.perms[n]) { ids := ids + {w.perms[n].appId}; }
    }
    r := Some(ids);
  }

  /**
   The list query takes a user without department for a member of the department with the reserved id, and
   the app is shared with that department.
   */
  predicate Mistaken(w: World, user: Id, app: Id) {
    && MyGroup(w, user).None?
    && exists k :: 0 <= k < |w.perms| && w.perms[k].appId == app && w.perms[k].rights.canView
                && w.perms[k].targetType == "Group" && w.perms[k].targetId == Some(NO_ID)
  }

  /** The two rules differ for the app: it is listed by mistake, and nothing else lets the user view it. */
  ghost predicate Differs(w: World, user: Id, role: string, app: Id)
    requires app in w.apps
  {
    role != ADMIN && w.apps[app].createdBy != user && !Granted(w, user, app, View) && Mistaken(w, user, app)
  }

  lemma QueriedExactly(w: World, user: Id, k: int)
    requires 0 <= k < |w.perms|
    ensures var p := w.perms[k];
      Queried(w, user, p) <==>
        || (Applies(w, user, p) && Has(p.rights, View))
        || (p.rights.canView && p.targetType == "Group" && p.targetId == Some(NO_ID) && MyGroup(w, user).None?)
  {
  }

  /** The list of visible apps holds an app exactly when the user may view it, unless the two rules differ for it. */
  lemma VisibleExactly(w: World, user: Id, role: string, app: Id)
    requires app in w.apps
    ensures (Visible(w, user, role).None? || app in Visible(w, user, role).value
             <==> Effective(w, user, role, app).value.canView)
            <==> !Differs(w, user, role, app)
    ensures Differs(w, user, role, app) ==> app in Visible(w, user, role).value
  {
    hide Queried, Applies, Has;
    if role != ADMIN && w.apps[app].createdBy != user {
      assert app in Visible(w, user, role).value <==>
        exists k :: 0 <= k < |w.perms| && Queried(w, user, w.perms[k]) && w.perms[k].appId == app;
      assert Effective(w, user, role, app).value.canView <==> Granted(w, user, app, View);
      assert app in Visible(w, user, role).value <==> Granted(w, user, app, View) || Mistaken(w, user, app) by {
        ListedExactly(w, user, app);
      }
    }
  }

  lemma ListedExactly(w: World, user: Id, app: Id)
    ensures (exists k :: 0 <= k < |w.perms| && Queried(w, user, w.perms[k]) && w.perms[k].appId == app)
            <==> Granted(w, user, app, View) || Mistaken(w, user, app)
  {
    hide Queried, Applies, Has;
    forall k | 0 <= k < |w.perms| && Queried(w, user, w.perms[k]) && w.perms[k].appId == app
      ensures Granted(w, user, app, View) || Mistaken(w, user, app)
    {
      QueriedExactly(w, user, k);
    }
    if Granted(w, user, app, View) {
      var k :| 0 <= k < |w.perms| && w.perms[k].appId == app && Applies(w, user, w.perms[k])
               && Has(w.perms[k].rights, View);
      QueriedExactly(w, user, k);
    }
    if Mistaken(w, user, app) {
      var k :| 0 <= k < |w.perms| && w.perms[k].appId == app && w.perms[k].rights.canView
               && w.perms[k].targetType == "Group" && w.perms[k].targetId == Some(NO_ID);
      QueriedExactly(w, user, k);
    }
  }

  /** An app shared with the reserved id only, and a user without department. */
  function ReservedWorld(user: Id, owner: Id, app: Id): World {
    World(map[app := App(owner, "all", "all", "")],
          [Permission(app, "Group", Some(NO_ID), NONE.(canView := true))], map[user := None], map[])
  }

  /** There the app is listed although the user may not view it. */
  lemma ListedButNotViewable(user: Id, owner: Id, app: Id, role: string)
    requires user != owner && role != ADMIN
    ensures var w := ReservedWorld(user, owner, app);
      app in Visible(w, user, role).value && !Effective(w, user, role, app).value.canView
  {
    var w := ReservedWorld(user, owner, app);
    assert w.perms[0].appId == app && Mistaken(w, user, app);
    assert !Granted(w, user, app, View);
    VisibleExactly(w, user, role, app);
  }

  // ----- the rules for single records -----

  /** The user, and everybody in the user's department or below it. */
  ghost function OrgUsers(w: World, user: Id): set<Id> {
    {user} + if MyGroup(w, user).None? then {}
             else set v | v in w.users && w.users[v].Some?
                          && Under(ParentsOf(w.groups), w.users[v].value, MyGroup(w, user).value)
  }

  method OrgScopedUserIds(w: World, user: Id) returns (ids: set<Id>)
    ensures ids == OrgUsers(w, user)
  {
    var scope := MyScopeGroupIds(w.groups, MyGroup(w, user));
    if MyGroup(w, user).Some? { UnderSelf(ParentsOf(w.groups), MyGroup(w, user).value); }
    if scope == [] { return {user}; }
    ids := set v | v in w.users && w.users[v].Some? && w.users[v].value in scope;
    ids := ids + {user};
  }

  datatype Kind = ToView | ToEdit

  /** Whose records the user may reach; `None` stands for everybody's. */
  ghost function AllowedCreators(w: World, app: Id, user: Id, role: string, kind: Kind,
                                 canManage: bool): Option<set<Id>> {
    if role == ADMIN || canManage || app !in w.apps || w.apps[app].createdBy == user then None
    else
      var scope := if kind.ToEdit? then w.apps[app].editScope else w.apps[app].viewScope;
      if scope == "owner" then Some({user}) else if scope == "org" then Some(OrgUsers(w, user)) else None
  }

  method AllowedCreatorIds(w: World, app: Id, user: Id, role: string, kind: Kind, canManage: bool)
    returns (r: Option<set<Id>>)
    ensures r == AllowedCreators(w, app, user, role, kind, canManage)
  {
    if role == ADMIN || canManage { return None; }
    if app !in w.apps { return None; }
    if w.apps[app].createdBy == user { return None; }
    var scope := if kind.ToEdit? then w.apps[app].editScope else w.apps[app].viewScope;
    if scope == "owner" { return Some({user}); }
    if scope == "org" {
      var ids := OrgScopedUserIds(w, user);
      return Some(ids);
    }
    return None;
  }

  datatype FieldScope = FieldScope(field: string, users: set<Id>)

  /** The field that names the employee a record is about, and the employees the user answers for. */
  ghost function ScopeOf(w: World, app: Id, user: Id, role: string, canManage: bool): Option<FieldScope> {
    if role == ADMIN || canManage || app !in w.apps || w.apps[app].scopeField == "" || w.apps[app].createdBy == user
    then None
    else Some(FieldScope(w.apps[app].scopeField, OrgUsers(w, user)))
  }

  method RecordFieldScope(w: World, app: Id, user: Id, role: string, canManage: bool) returns (r: Option<FieldScope>)
    ensures r == ScopeOf(w, app, user, role, canManage)
  {
    if role == ADMIN || canManage { return None; }
    if app !in w.apps || w.apps[app].scopeField == "" { return None; }
    if w.apps[app].createdBy == user { return None; }
    var ids := OrgScopedUserIds(w, user);
    return Some(FieldScope(w.apps[app].scopeField, ids));
  }

  datatype StoredRecord = StoredRecord(appId: Id, createdBy: Id, data: Record)

  type Records = map<Id, StoredRecord>

  /** `String(data[field] ?? '')` */
  function FieldText(h: Host, data: Record, field: string): string {
    match Lookup(data, field)
    case None => ""
    case Some(Null) => ""
    case Some(Text(s)) => s
    case Some(v) => h.text(v)
  }

  /** The single-record route: the right to view the app, then the rule by creator, then the rule by employee field. */
  ghost predicate RouteShows(w: World, h: Host, records: Records, user: Id, role: string, id: Id) {
    && id in records
    && var r := records[id];
       var rights := Effective(w, user, role, r.appId);
       && rights.Some? && rights.value.canView
       && var creators := AllowedCreators(w, r.appId, user, role, ToView, rights.value.canManage);
          var scope := ScopeOf(w, r.appId, user, role, rights.value.canManage);
          && (creators.Some? ==> r.createdBy in creators.value)
          && (scope.Some? ==> FieldText(h, r.data, scope.value.field) in scope.value.users)
  }

  /** `findOne` of the controller, up to fetching the record. */
  method ShowRecord(w: World, h: Host, records: Records, user: Id, role: string, id: Id) returns (shown: bool)
    ensures shown <==> RouteShows(w, h, records, user, role, id)
  {
    hide Effective, AllowedCreators, ScopeOf, FieldText;
    if id !in records { return false; }
    var r := records[id];
    var rights := GetEffectivePermission(w, user, role, r.appId);
    if rights.None? || !rights.value.canView { return false; }
    var creators := AllowedCreatorIds(w, r.appId, user, role, ToView, rights.value.canManage);
    if creators.Some? && r.createdBy !in creators.value { return false; }
    var scope := RecordFieldScope(w, r.appId, user, role, rights.value.canManage);
    if scope.Some? && FieldText(h, r.data, scope.value.field) !in scope.value.users { return false; }
    shown := true;
  }

  // ----- the two scopes -----

  /** The view scope does not decide who may edit, nor the edit scope who may view. */
  lemma ScopesApart(w: World, app: Id, user: Id, role: string, canManage: bool, scope: string)
    requires app in w.apps
    ensures var viewed := w.(apps := w.apps[app := w.apps[app].(viewScope := scope)]);
      AllowedCreators(viewed, app, user, role, ToEdit, canManage) == AllowedCreators(w, app, user, role, ToEdit, canManage)
    ensures var edited := w.(apps := w.apps[app := w.apps[app].(editScope := scope)]);
      AllowedCreators(edited, app, user, role, ToView, canManage) == AllowedCreators(w, app, user, role, ToView, canManage)
  {
  }

  /** Whether the scope of that name lets the user reach a record of this creator. */
  ghost predicate Reaches(w: World, user: Id, scope: string, creator: Id) {
    && (scope == "owner" ==> creator == user)
    && (scope == "org" ==> creator == user || (MyGroup(w, user).Some? && creator in w.users && w.users[creator].Some?
                                               && Under(ParentsOf(w.groups), w.users[creator].value, MyGroup(w, user).value)))
  }

  /** Who owns or manages the app reaches every record, everybody else those the scope for the purpose lets through. */
  lemma ReachedExactly(w: World, app: Id, user: Id, role: string, kind: Kind, canManage: bool, creator: Id)
    requires app in w.apps
    ensures var a := AllowedCreators(w, app, user, role, kind, canManage);
      (a.Some? ==> creator in a.value) <==>
      || role == "SystemAdmin" || canManage || w.apps[app].createdBy == user
      || Reaches(w, user, if kind == ToEdit then w.apps[app].editScope else w.apps[app].viewScope, creator)
  {
  }

  /** The employee a record names: what the field holds, written out; nothing if it is missing. */
  function Employee(h: Host, data: Record, field: string): string {
    if field !in data || data[field] == Null then ""
    else if data[field].Text? then data[field].s
    else h.text(data[field])
  }

  /**
   Who sees a single record: administrators, the owner of the app, and whoever may view the app and either manages it or is let
   through by its view scope and, where the app names an employee field, answers for the employee named.
   */
  lemma RouteExactly(w: World, h: Host, records: Records, user: Id, role: string, id: Id)
    requires id in records && records[id].appId in w.apps
    ensures var r, a := records[id], w.apps[records[id].appId];
      RouteShows(w, h, records, user, role, id) <==>
      || role == "SystemAdmin" || a.createdBy == user
      || (Granted(w, user, r.appId, View) &&
          (|| (role != "Viewer" && Granted(w, user, r.appId, Manage))
           || (Reaches(w, user, a.viewScope, r.createdBy)
               && (a.scopeField == "" || Reaches(w, user, "org", Employee(h, r.data, a.scopeField))))))
  {
    hide ParentsOf, Under, MyGroup, Granted;
    var r := records[id];
    var rights := Effective(w, user, role, r.appId);
    if rights.Some? { ReachedExactly(w, r.appId, user, role, ToView, rights.value.canManage, r.createdBy); }
    OrgExactly(w, user, Employee(h, r.data, w.apps[r.appId].scopeField));
  }

  lemma OrgExactly(w: World, user: Id, v: Id)
    ensures v in OrgUsers(w, user) <==> Reaches(w, user, "org", v)
  {
  }

  /** The rights on an app: all for administrators and its owner; else those granted, of which a viewer only has the view. */
  lemma RightsExactly(w: World, user: Id, role: string, app: Id)
    ensures Effective(w, user, role, app).None? <==> role != "SystemAdmin" && app !in w.apps
    ensures Effective(w, user, role, app).Some? ==>
      var r := Effective(w, user, role, app).value;
      var all, more := role == "SystemAdmin" || w.apps[app].createdBy == user, role != "Viewer";
      && (r.canView <==> all || Granted(w, user, app, View))
      && (r.canAdd <==> all || (more && Granted(w, user, app, Add)))
      && (r.canEdit <==> all || (more && Granted(w, user, app, Edit)))
      && (r.canDelete <==> all || (more && Granted(w, user, app, Delete)))
      && (r.canManage <==> all || (more && Granted(w, user, app, Manage)))
  {
    hide Granted;
  }
}
