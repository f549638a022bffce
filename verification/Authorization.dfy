/**
 Authorization in two layers: the role/policy enforcer behind point lookups
 (internal/authz, internal/api/authz.go) and the row filters behind list queries
 (internal/db/shares.go).
 */
module Authorization {
  import opened Options

  type Uuid = nat
  const NIL_ID: Uuid := 0

  /** Role names of the policy table; any other name a token carries is Other. */
  datatype Role = Anonymous | UserRole | DevopsViewer | DevopsAdmin | Admin | Other(name: string)

  datatype ResourceType = Specimens | Photos | Journal | Collectors | QrSheets | Devops | Users

  datatype Visibility = Private | Unlisted | Public

  /** A resource as the matcher sees it; an empty Go string is None. */
  datatype Resource = Resource(
    typ: ResourceType, id: Option<Uuid>, visibility: Option<Visibility>, authorId: Option<Uuid>)

  /** The caller as the middleware leaves it; id NIL_ID means no application identity. */
  datatype Caller = Caller(id: Uuid, roles: seq<Role>)

  /** The caller as the enforcer sees it. */
  datatype Subject = Subject(id: Option<Uuid>, roles: seq<Role>)

  datatype Share = Share(typ: ResourceType, resource: Uuid, sharedWith: Uuid)

  // ------------------------------------------------------------- the enforcer

  datatype TypePattern = AnyType | Only(typ: ResourceType)
  datatype Instance = AnyInstance | PublicOnes | UnlistedOnes | Own | Shared | Exactly(id: Uuid)
  datatype Policy = Policy(sub: Role, objType: TypePattern, instance: Instance, actSet: string)

  const VIEW := "view"

  const DEFAULT_POLICIES: seq<Policy> := [
    Policy(Anonymous, Only(Specimens), PublicOnes, "view"),
    Policy(Anonymous, Only(Specimens), UnlistedOnes, "view"),
    Policy(Anonymous, Only(Photos), PublicOnes, "view"),
    Policy(Anonymous, Only(Photos), UnlistedOnes, "view"),
    Policy(UserRole, Only(Specimens), Own, "*"),
    Policy(UserRole, Only(Photos), Own, "*"),
    Policy(UserRole, Only(Journal), Own, "*"),
    Policy(UserRole, Only(Collectors), Own, "*"),
    Policy(UserRole, Only(QrSheets), Own, "*"),
    Policy(UserRole, Only(Specimens), Shared, "view"),
    Policy(UserRole, Only(Photos), Shared, "view"),
    Policy(DevopsViewer, Only(Devops), AnyInstance, "view"),
    Policy(DevopsAdmin, Only(Devops), AnyInstance, "view,edit"),
    Policy(Admin, AnyType, AnyInstance, "*"),
    Policy(Admin, Only(Users), AnyInstance, "*")]

  const DEFAULT_GROUPINGS: seq<(Role, Role)> := [(DevopsAdmin, DevopsViewer)]

  const MAX_HIERARCHY_LEVEL: nat := 10

  /** strings.Split(s, ","). */
  function Split(s: string): seq<string> {
    SplitFrom(s, "")
  }

  function SplitFrom(s: string, word: string): seq<string>
    decreases |s|
  {
    if s == "" then [word]
    else if s[0] == ',' then [word] + SplitFrom(s[1..], "")
    else SplitFrom(s[1..], word + [s[0]])
  }

  /** strings.TrimSpace on ASCII. */
  function TrimLeft(s: string): string {
    if s != "" && s[0] in " \t\n\r" then TrimLeft(s[1..]) else s
  }

  function Trim(s: string): string
    decreases |s|
  {
    var t := TrimLeft(s);
    TrimLeftShortens(s);
    if t != "" && t[|t| - 1] in " \t\n\r" then Trim(t[..|t| - 1]) else t
  }

  lemma TrimLeftShortens(s: string)
    ensures |TrimLeft(s)| <= |s|
  {}

  predicate ActionMatch(act: string, actSet: string) {
    actSet == "*" || exists i :: 0 <= i < |Split(actSet)| && Trim(Split(actSet)[i]) == act
  }

  predicate InstanceMatch(shares: set<Share>, instance: Instance, sub: Option<Uuid>, obj: Resource) {
    match instance
    case AnyInstance => true
    case PublicOnes => obj.visibility == Some(Public)
    case UnlistedOnes => obj.visibility == Some(Unlisted)
    case Own => sub.Some? && obj.authorId == sub
    case Shared => sub.Some? && obj.id.Some? && Share(obj.typ, obj.id.value, sub.value) in shares
    case Exactly(id) => obj.id == Some(id)
  }

  /** g(role, sub): the role itself or one it inherits. */
  predicate Inherits(groupings: seq<(Role, Role)>, role: Role, sub: Role, depth: nat)
    decreases depth
  {
    role == sub ||
    (depth > 0 && exists i :: 0 <= i < |groupings| && groupings[i].0 == role
                              && Inherits(groupings, groupings[i].1, sub, depth - 1))
  }

  /** The model's matcher expression for one role and one policy. */
  predicate Matches(e: Enforcer, shares: set<Share>, role: Role, sub: Option<Uuid>, obj: Resource, act: string, p: Policy) {
    && Inherits(e.groupings, role, p.sub, MAX_HIERARCHY_LEVEL)
    && (p.objType == AnyType || p.objType == Only(obj.typ))
    && ActionMatch(act, p.actSet)
    && InstanceMatch(shares, p.instance, sub, obj)
  }

  datatype Enforcer = Enforcer(policies: seq<Policy>, groupings: seq<(Role, Role)>)

  predicate EnforceRole(e: Enforcer, shares: set<Share>, role: Role, sub: Option<Uuid>, obj: Resource, act: string) {
    exists p :: p in e.policies && Matches(e, shares, role, sub, obj, act, p)
  }

  datatype Decision = Allowed | Denied | Failed

  /** One role that grants the action suffices; an empty action is an error. */
  function Enforce(e: Enforcer, shares: set<Share>, u: Subject, obj: Resource, act: string): Decision {
    if act == "" then Failed
    else if exists role :: role in u.roles && EnforceRole(e, shares, role, u.id, obj, act) then Allowed
    else Denied
  }

  const SEEDED := Enforcer(DEFAULT_POLICIES, DEFAULT_GROUPINGS)

  /** The missing ones of `more` are added behind `have`, each once; nothing else changes. */
  ghost predicate Adds<T(!new)>(have: seq<T>, more: seq<T>, result: seq<T>) {
    && have <= result
    && (forall x :: x in result <==> x in have || x in more)
    && (forall i, j :: 0 <= i < j < |result| && |have| <= j ==> result[i] != result[j])
  }

  class PolicyStore {
    var policies: seq<Policy>
    var groupings: seq<(Role, Role)>

    constructor ()
      ensures policies == [] && groupings == []
    {
      policies, groupings := [], [];
    }

    method AddPolicy(p: Policy) returns (added: bool)
      modifies this`policies
      ensures added <==> p !in old(policies)
      ensures policies == if added then old(policies) + [p] else old(policies)
    {
      added := p !in policies;
      if added { policies := policies + [p]; }
    }

    method AddGrouping(g: (Role, Role)) returns (added: bool)
      modifies this`groupings
      ensures added <==> g !in old(groupings)
      ensures groupings == if added then old(groupings) + [g] else old(groupings)
    {
      added := g !in groupings;
      if added { groupings := groupings + [g]; }
    }

    method AddPolicies(ps: seq<Policy>)
      modifies this`policies
      ensures Adds(old(policies), ps, policies)
    {
      for i := 0 to |ps|
        invariant Adds(old(policies), ps[..i], policies)
      {
        AddsNext(old(policies), ps, i, policies);
        var _ := AddPolicy(ps[i]);
      }
      assert ps[..|ps|] == ps;
    }

    method AddGroupings(gs: seq<(Role, Role)>)
      modifies this`groupings
      ensures Adds(old(groupings), gs, groupings)
    {
      for i := 0 to |gs|
        invariant Adds(old(groupings), gs[..i], groupings)
      {
        AddsNext(old(groupings), gs, i, groupings);
        var _ := AddGrouping(gs[i]);
      }
      assert gs[..|gs|] == gs;
    }

    method SeedDefaultPolicies()
      modifies this
      ensures Adds(old(policies), DEFAULT_POLICIES, policies)
      ensures Adds(old(groupings), DEFAULT_GROUPINGS, groupings)
    {
      AddPolicies(DEFAULT_POLICIES);
      AddGroupings(DEFAULT_GROUPINGS);
    }
  }

  lemma AddsNext<T(!new)>(have: seq<T>, more: seq<T>, i: nat, result: seq<T>)
    requires i < |more| && Adds(have, more[..i], result)
    ensures Adds(have, more[..i + 1], if more[i] in result then result else result + [more[i]])
  {
    assert more[..i + 1] == more[..i] + [more[i]];
  }

  lemma ExtraIsNew<T(!new)>(have: seq<T>, more: seq<T>, result: seq<T>)
    requires Adds(have, more, result) && |result| > |have|
    ensures exists x :: x in more && x !in have
  {
    var x := result[|have|];
    assert x in result;
  }

  /** Seeding twice is seeding once. */
  lemma SeedingIsIdempotent<T(!new)>(have: seq<T>, more: seq<T>, once: seq<T>, twice: seq<T>)
    requires Adds(have, more, once) && Adds(once, more, twice)
    ensures twice == once
  {
    if |twice| > |once| { ExtraIsNew(once, more, twice); }
  }

  lemma {:induction false} InheritsAlike(gs: seq<(Role, Role)>, gs': seq<(Role, Role)>, role: Role, sub: Role, depth: nat)
    requires forall g :: g in gs ==> g in gs'
    requires Inherits(gs, role, sub, depth)
    ensures Inherits(gs', role, sub, depth)
    decreases depth
  {
    if role != sub {
      var i :| 0 <= i < |gs| && gs[i].0 == role && Inherits(gs, gs[i].1, sub, depth - 1);
      assert gs[i] in gs';
      var j :| 0 <= j < |gs'| && gs'[j] == gs[i];
      InheritsAlike(gs, gs', gs[i].1, sub, depth - 1);
    }
  }

  /** More policies and groupings only ever allow more. */
  lemma AllowsAlike(e: Enforcer, e': Enforcer, shares: set<Share>, u: Subject, obj: Resource, act: string)
    requires (forall p :: p in e.policies ==> p in e'.policies) && (forall g :: g in e.groupings ==> g in e'.groupings)
    requires Enforce(e, shares, u, obj, act) == Allowed
    ensures Enforce(e', shares, u, obj, act) == Allowed
  {
    var role :| role in u.roles && EnforceRole(e, shares, role, u.id, obj, act);
    var p :| p in e.policies && Matches(e, shares, role, u.id, obj, act, p);
    InheritsAlike(e.groupings, e'.groupings, role, p.sub, MAX_HIERARCHY_LEVEL);
    assert Matches(e', shares, role, u.id, obj, act, p);
  }

  /** A store seeded from scratch decides as the default table does. */
  lemma SeededStoreDecides(e: Enforcer, shares: set<Share>, u: Subject, obj: Resource, act: string)
    requires forall p :: p in e.policies <==> p in SEEDED.policies
    requires forall g :: g in e.groupings <==> g in SEEDED.groupings
    ensures Enforce(e, shares, u, obj, act) == Enforce(SEEDED, shares, u, obj, act)
  {
    if Enforce(e, shares, u, obj, act) == Allowed {
      AllowsAlike(e, SEEDED, shares, u, obj, act);
    } else if Enforce(SEEDED, shares, u, obj, act) == Allowed {
      AllowsAlike(SEEDED, e, shares, u, obj, act);
    }
  }

  // ---------------------------------------------------------------- the guard

  /**
   Every role is kept, in order. A caller with an identity ends up with the user role; one
   with neither identity nor roles is anonymous; no other role is ever gained.
   */
  ghost predicate Presents(u: Caller, s: Subject) {
    && s.id == (if u.id == NIL_ID then None else Some(u.id))
    && u.roles <= s.roles
    && (forall r :: r in s.roles <==>
          || r in u.roles
          || (r == UserRole && u.id != NIL_ID)
          || (r == Anonymous && u.id == NIL_ID && u.roles == []))
    && |s.roles| - |u.roles| == (if (u.id != NIL_ID && UserRole !in u.roles) || (u.id == NIL_ID && u.roles == []) then 1 else 0)
  }

  method AuthzUser(u: Caller) returns (s: Subject)
    ensures Presents(u, s) && s == SubjectOf(u)
    ensures s.roles != [] && (Admin in s.roles <==> Admin in u.roles)
  {
    var roles := u.roles;
    if u.id != NIL_ID {
      if UserRole !in roles {
        roles := roles + [UserRole];
      }
    } else if |roles| == 0 {
      roles := [Anonymous];
    }
    var id := None;
    if u.id != NIL_ID {
      id := Some(u.id);
    }
    return Subject(id, roles);
  }

  /** There is one such subject, and presenting its roles again adds nothing. */
  lemma PresentedOnce(u: Caller, s: Subject)
    requires Presents(u, s)
    ensures s == SubjectOf(u) && SubjectOf(Caller(u.id, s.roles)) == s
  {
    var n := |u.roles|;
    if |s.roles| > n {
      assert s.roles == u.roles + [s.roles[n]];
      assert s.roles[n] in s.roles;
      if u.id != NIL_ID {
        assert UserRole in s.roles;
      } else {
        assert Anonymous in s.roles;
      }
    }
  }

  function SubjectOf(u: Caller): Subject {
    if u.id != NIL_ID
    then Subject(Some(u.id), if UserRole in u.roles then u.roles else u.roles + [UserRole])
    else Subject(None, if u.roles == [] then [Anonymous] else u.roles)
  }

  /** A missing enforcer passes everything; a view of a public or unlisted resource always passes. */
  function Check(guard: Option<Enforcer>, shares: set<Share>, u: Caller, res: Resource, act: string): Decision {
    if guard.None? then Allowed
    else if act == VIEW && (res.visibility == Some(Public) || res.visibility == Some(Unlisted)) then Allowed
    else Enforce(guard.value, shares, SubjectOf(u), res, act)
  }

  datatype SpecimenRow = SpecimenRow(id: Uuid, author: Uuid, visibility: Visibility)
  datatype OwnedRow = OwnedRow(id: Uuid, author: Uuid)

  function SpecimenResource(s: SpecimenRow): Resource {
    Resource(Specimens, Some(s.id), Some(s.visibility), Some(s.author))
  }

  function CollectorResource(c: OwnedRow): Resource {
    Resource(Collectors, Some(c.id), None, Some(c.author))
  }

  function JournalResource(e: OwnedRow): Resource {
    Resource(Journal, Some(e.id), None, Some(e.author))
  }

  // ------------------------------------------------- what the default table says

  lemma {:induction false} SplitOneWord(s: string, word: string)
    requires ',' !in s
    ensures SplitFrom(s, word) == [word + s]
    decreases |s|
  {
    if s == "" {
      assert word + s == word;
    } else {
      SplitOneWord(s[1..], word + [s[0]]);
      assert word + [s[0]] + s[1..] == word + s;
    }
  }

  lemma TrimNothing(s: string)
    requires s != "" && s[0] !in " \t\n\r" && s[|s| - 1] !in " \t\n\r"
    ensures Trim(s) == s
  {
    assert TrimLeft(s) == s;
  }

  lemma {:induction false} SplitAtComma(s: string, rest: string, word: string)
    requires ',' !in s
    ensures SplitFrom(s + "," + rest, word) == [word + s] + SplitFrom(rest, "")
    decreases |s|
  {
    var whole := s + "," + rest;
    if s == "" {
      assert whole[0] == ',' && whole[1..] == rest && word + s == word;
    } else {
      assert whole[0] == s[0] && whole[1..] == s[1..] + "," + rest;
      SplitAtComma(s[1..], rest, word + [s[0]]);
      assert word + [s[0]] + s[1..] == word + s;
    }
  }

  const EDIT := "edit"

  /** A word of an action list: no comma, and nothing to trim. */
  predicate IsWord(word: string) {
    word != "" && word != "*" && ',' !in word && word[0] !in " \t\n\r" && word[|word| - 1] !in " \t\n\r"
  }

  lemma OneAction(act: string, word: string)
    requires IsWord(word)
    ensures ActionMatch(act, word) <==> act == word
  {
    SplitOneWord(word, "");
    assert "" + word == word;
    TrimNothing(word);
    assert Split(word)[0] == word;
  }

  lemma TwoActions(act: string, first: string, second: string)
    requires IsWord(first) && IsWord(second)
    ensures ActionMatch(act, first + "," + second) <==> act == first || act == second
  {
    var both := first + "," + second;
    SplitAtComma(first, second, "");
    SplitOneWord(second, "");
    assert "" + first == first && "" + second == second;
    assert Split(both) == [first, second];
    TrimNothing(first);
    TrimNothing(second);
    assert |both| > 1;
    assert Trim(Split(both)[0]) == first && Trim(Split(both)[1]) == second;
  }

  lemma ActionSets(act: string)
    ensures ActionMatch(act, "*")
    ensures ActionMatch(act, "view") <==> act == VIEW
    ensures ActionMatch(act, "view,edit") <==> act == VIEW || act == EDIT
  {
    OneAction(act, VIEW);
    TwoActions(act, VIEW, EDIT);
    assert VIEW + "," + EDIT == "view,edit";
  }

  lemma {:induction false} InheritsAt(role: Role, sub: Role, depth: nat)
    requires depth >= 1
    ensures Inherits(DEFAULT_GROUPINGS, role, sub, depth) <==>
            role == sub || (role == DevopsAdmin && sub == DevopsViewer)
    decreases depth
  {
    assert DEFAULT_GROUPINGS[0] == (DevopsAdmin, DevopsViewer);
    if depth > 1 { InheritsAt(DevopsViewer, sub, depth - 1); }
  }

  /** What belongs to a user: everything but the operations console and the user directory. */
  predicate Owned(typ: ResourceType) {
    typ in {Specimens, Photos, Journal, Collectors, QrSheets}
  }

  /** What a single role contributes, in plain words. */
  ghost predicate RoleGrants(shares: set<Share>, role: Role, sub: Option<Uuid>, obj: Resource, act: string) {
    || role == Admin
    || (role == UserRole && Owned(obj.typ) && sub.Some? && obj.authorId == sub)
    || (role == UserRole && obj.typ in {Specimens, Photos} && act == VIEW
        && sub.Some? && obj.id.Some? && Share(obj.typ, obj.id.value, sub.value) in shares)
    || (role == Anonymous && obj.typ in {Specimens, Photos} && act == VIEW && OpenToAll(obj))
    || (role in {DevopsViewer, DevopsAdmin} && obj.typ == Devops && act == VIEW)
    || (role == DevopsAdmin && obj.typ == Devops && act == EDIT)
  }

  ghost predicate PolicyGrants(shares: set<Share>, role: Role, sub: Option<Uuid>, obj: Resource, act: string, p: Policy) {
    Matches(SEEDED, shares, role, sub, obj, act, p)
  }

  lemma PolicyRow(shares: set<Share>, role: Role, sub: Option<Uuid>, obj: Resource, act: string, i: nat)
    requires i < |DEFAULT_POLICIES| && PolicyGrants(shares, role, sub, obj, act, DEFAULT_POLICIES[i])
    ensures RoleGrants(shares, role, sub, obj, act)
  {
    ActionSets(act);
    InheritsAt(role, DEFAULT_POLICIES[i].sub, MAX_HIERARCHY_LEVEL);
  }

  lemma Granting(shares: set<Share>, role: Role, sub: Option<Uuid>, obj: Resource, act: string, i: nat)
    requires i < |DEFAULT_POLICIES|
    requires var p := DEFAULT_POLICIES[i];
             && (p.sub == role || (role == DevopsAdmin && p.sub == DevopsViewer))
             && (p.objType == AnyType || p.objType == Only(obj.typ))
             && (p.actSet == "*" || (p.actSet == "view" && act == VIEW) || (p.actSet == "view,edit" && act == EDIT))
             && InstanceMatch(shares, p.instance, sub, obj)
    ensures EnforceRole(SEEDED, shares, role, sub, obj, act)
  {
    ActionSets(act);
    InheritsAt(role, DEFAULT_POLICIES[i].sub, MAX_HIERARCHY_LEVEL);
    assert DEFAULT_POLICIES[i] in SEEDED.policies;
    assert Matches(SEEDED, shares, role, sub, obj, act, DEFAULT_POLICIES[i]);
  }

  function OwnRow(typ: ResourceType): nat {
    match typ
    case Specimens => 4
    case Photos => 5
    case Journal => 6
    case Collectors => 7
    case _ => 8
  }

  lemma GrantedIsEnforced(shares: set<Share>, role: Role, sub: Option<Uuid>, obj: Resource, act: string)
    requires RoleGrants(shares, role, sub, obj, act)
    ensures EnforceRole(SEEDED, shares, role, sub, obj, act)
  {
    if role == Admin {
      Granting(shares, role, sub, obj, act, 13);
    } else if role == Anonymous {
      Granting(shares, role, sub, obj, act,
               (if obj.typ == Specimens then 0 else 2) + if obj.visibility == Some(Public) then 0 else 1);
    } else if role == UserRole {
      Granting(shares, role, sub, obj, act,
               if obj.authorId == sub then OwnRow(obj.typ) else if obj.typ == Specimens then 9 else 10);
    } else {
      Granting(shares, role, sub, obj, act, if act == VIEW then 11 else 12);
    }
  }

  /** What the policy table, inheritance and matchers come to for a single role, type and action. */
  lemma EnforceRoleGrants(shares: set<Share>, role: Role, sub: Option<Uuid>, obj: Resource, act: string)
    ensures EnforceRole(SEEDED, shares, role, sub, obj, act) <==> RoleGrants(shares, role, sub, obj, act)
  {
    if EnforceRole(SEEDED, shares, role, sub, obj, act) {
      var p :| p in SEEDED.policies && Matches(SEEDED, shares, role, sub, obj, act, p);
      var i :| 0 <= i < |DEFAULT_POLICIES| && DEFAULT_POLICIES[i] == p;
      PolicyRow(shares, role, sub, obj, act, i);
    }
    if RoleGrants(shares, role, sub, obj, act) { GrantedIsEnforced(shares, role, sub, obj, act); }
  }

  lemma SubjectRoles(u: Caller)
    ensures Admin in SubjectOf(u).roles <==> Admin in u.roles
    ensures u.id != NIL_ID ==> UserRole in SubjectOf(u).roles
    ensures SubjectOf(u).id == if u.id != NIL_ID then Some(u.id) else None
  {}

  ghost predicate SomeRoleGrants(shares: set<Share>, u: Subject, res: Resource, act: string) {
    exists role :: role in u.roles && RoleGrants(shares, role, u.id, res, act)
  }

  lemma EnforceSeeded(shares: set<Share>, u: Subject, res: Resource, act: string)
    requires act != ""
    ensures Enforce(SEEDED, shares, u, res, act) == Allowed <==> SomeRoleGrants(shares, u, res, act)
  {
    forall role | role in u.roles
      ensures EnforceRole(SEEDED, shares, role, u.id, res, act) <==> RoleGrants(shares, role, u.id, res, act)
    {
      EnforceRoleGrants(shares, role, u.id, res, act);
    }
  }

  predicate OpenToAll(res: Resource) {
    res.visibility == Some(Public) || res.visibility == Some(Unlisted)
  }

  predicate Owns(u: Caller, res: Resource) {
    u.id != NIL_ID && res.authorId == Some(u.id)
  }

  predicate IsSharedWith(shares: set<Share>, u: Caller, res: Resource) {
    u.id != NIL_ID && res.id.Some? && Share(res.typ, res.id.value, u.id) in shares
  }

  /** All that the default policies allow, for every type of resource and every action. */
  ghost predicate May(shares: set<Share>, u: Caller, res: Resource, act: string) {
    || Admin in u.roles
    || (Owned(res.typ) && Owns(u, res))
    || (act == VIEW && OpenToAll(res))
    || (act == VIEW && res.typ in {Specimens, Photos} && IsSharedWith(shares, u, res))
    || (res.typ == Devops && act == VIEW && (DevopsViewer in u.roles || DevopsAdmin in u.roles))
    || (res.typ == Devops && act == EDIT && DevopsAdmin in u.roles)
  }

  lemma GrantedMay(shares: set<Share>, u: Caller, res: Resource, act: string, role: Role)
    requires role in SubjectOf(u).roles && RoleGrants(shares, role, SubjectOf(u).id, res, act)
    ensures May(shares, u, res, act)
  {
    SubjectRoles(u);
  }

  lemma MayGranted(shares: set<Share>, u: Caller, res: Resource, act: string)
    requires May(shares, u, res, act) && !(act == VIEW && OpenToAll(res))
    ensures SomeRoleGrants(shares, SubjectOf(u), res, act)
  {
    SubjectRoles(u);
    var role := if Admin in u.roles then Admin
                else if res.typ != Devops then UserRole
                else if DevopsAdmin in u.roles then DevopsAdmin else DevopsViewer;
    assert role in SubjectOf(u).roles && RoleGrants(shares, role, SubjectOf(u).id, res, act);
  }

  lemma GrantedIffMay(shares: set<Share>, u: Caller, res: Resource, act: string)
    requires !(act == VIEW && OpenToAll(res))
    ensures SomeRoleGrants(shares, SubjectOf(u), res, act) <==> May(shares, u, res, act)
  {
    if SomeRoleGrants(shares, SubjectOf(u), res, act) {
      var role :| role in SubjectOf(u).roles && RoleGrants(shares, role, SubjectOf(u).id, res, act);
      GrantedMay(shares, u, res, act, role);
    }
    if May(shares, u, res, act) { MayGranted(shares, u, res, act); }
  }

  /** The guard with the default policies, for every caller, share table, resource and action. */
  lemma CheckDecides(shares: set<Share>, u: Caller, res: Resource, act: string)
    ensures Check(Some(SEEDED), shares, u, res, act) ==
            if act == "" then Failed else if May(shares, u, res, act) then Allowed else Denied
  {
    if act != "" && !(act == VIEW && OpenToAll(res)) {
      EnforceSeeded(shares, SubjectOf(u), res, act);
      GrantedIffMay(shares, u, res, act);
    }
  }

  /** Changing what belongs to a user, visible or shared or not, is for its owner and admins. */
  lemma CheckChange(shares: set<Share>, u: Caller, res: Resource, act: string)
    requires Owned(res.typ) && act != VIEW && act != ""
    ensures Check(Some(SEEDED), shares, u, res, act) == Allowed <==> Admin in u.roles || Owns(u, res)
  {
    CheckDecides(shares, u, res, act);
  }

  /** Viewing through the seeded enforcer, in plain words: visible to all, admin, own, or a shared specimen or photo. */
  ghost predicate MayView(shares: set<Share>, u: Caller, res: Resource) {
    || OpenToAll(res)
    || Admin in u.roles
    || Owns(u, res)
    || (res.typ in {Specimens, Photos} && IsSharedWith(shares, u, res))
  }

  lemma CheckView(shares: set<Share>, u: Caller, res: Resource)
    requires Owned(res.typ)
    ensures Check(Some(SEEDED), shares, u, res, VIEW) == Allowed <==> MayView(shares, u, res)
  {
    CheckDecides(shares, u, res, VIEW);
  }

  lemma NoGuardPasses(shares: set<Share>, u: Caller, res: Resource, act: string)
    ensures Check(None, shares, u, res, act) == Allowed
  {}

  // ----------------------------------------------------------- the row filters

  /** A bound query parameter. */
  datatype Arg = UuidArg(id: Uuid) | OtherArg

  /** The WHERE fragments; `param` is the 1-based number of a bound parameter. */
  datatype Clause =
    | Unrestricted
    | Never
    | AuthorIs(param: nat)
    | Visible(unlistedToo: bool)
    | VisibleOwnOrShared(unlistedToo: bool, param: nat)

  predicate IsAdmin(u: Caller) {
    Admin in u.roles
  }

  predicate IsAnonymous(u: Caller) {
    u.id == NIL_ID
  }

  function OwnerScope(u: Caller, args: seq<Arg>): (Clause, seq<Arg>) {
    if IsAdmin(u) then (Unrestricted, args)
    else if IsAnonymous(u) then (Never, args)
    else (AuthorIs(|args| + 1), args + [UuidArg(u.id)])
  }

  function SpecimenListScope(u: Caller, args: seq<Arg>): (Clause, seq<Arg>) {
    if IsAdmin(u) then (Unrestricted, args)
    else if IsAnonymous(u) then (Visible(false), args)
    else (VisibleOwnOrShared(false, |args| + 1), args + [UuidArg(u.id)])
  }

  function SpecimenAccessScope(u: Caller, args: seq<Arg>): (Clause, seq<Arg>) {
    if IsAdmin(u) then (Unrestricted, args)
    else if IsAnonymous(u) then (Visible(true), args)
    else (VisibleOwnOrShared(true, |args| + 1), args + [UuidArg(u.id)])
  }

  predicate ParamIs(args: seq<Arg>, param: nat, id: Uuid) {
    1 <= param <= |args| && args[param - 1] == UuidArg(id)
  }

  predicate Listed(v: Visibility, unlistedToo: bool) {
    v == Public || (unlistedToo && v == Unlisted)
  }

  /** What the database makes of a fragment on a specimens row. */
  predicate AdmitsSpecimen(scope: (Clause, seq<Arg>), shares: set<Share>, row: SpecimenRow) {
    match scope.0
    case Unrestricted => true
    case Never => false
    case AuthorIs(n) => ParamIs(scope.1, n, row.author)
    case Visible(unlistedToo) => Listed(row.visibility, unlistedToo)
    case VisibleOwnOrShared(unlistedToo, n) =>
      || Listed(row.visibility, unlistedToo)
      || ParamIs(scope.1, n, row.author)
      || exists h :: h in shares && h.typ == Specimens && h.resource == row.id && ParamIs(scope.1, n, h.sharedWith)
  }

  /** And on a row that has an author column only. */
  predicate AdmitsOwned(scope: (Clause, seq<Arg>), row: OwnedRow) {
    match scope.0
    case Unrestricted => true
    case AuthorIs(n) => ParamIs(scope.1, n, row.author)
    case _ => false
  }

  lemma SharedRow(shares: set<Share>, args: seq<Arg>, id: Uuid, user: Uuid)
    ensures (exists h :: h in shares && h.typ == Specimens && h.resource == id
                         && ParamIs(args + [UuidArg(user)], |args| + 1, h.sharedWith))
            <==> Share(Specimens, id, user) in shares
  {
    if Share(Specimens, id, user) in shares {
      assert ParamIs(args + [UuidArg(user)], |args| + 1, Share(Specimens, id, user).sharedWith);
    }
  }

  /** The photo filter's access scope admits a specimen exactly when the guard lets its caller view it. */
  lemma AccessScopeAgrees(shares: set<Share>, u: Caller, args: seq<Arg>, row: SpecimenRow)
    ensures AdmitsSpecimen(SpecimenAccessScope(u, args), shares, row) <==>
            Check(Some(SEEDED), shares, u, SpecimenResource(row), VIEW) == Allowed
  {
    CheckView(shares, u, SpecimenResource(row));
    SharedRow(shares, args, row.id, u.id);
  }

  /** The owner scope does the same for collectors and journal entries. */
  lemma OwnerScopeAgrees(shares: set<Share>, u: Caller, args: seq<Arg>, row: OwnedRow)
    ensures AdmitsOwned(OwnerScope(u, args), row) <==>
            Check(Some(SEEDED), shares, u, CollectorResource(row), VIEW) == Allowed
    ensures AdmitsOwned(OwnerScope(u, args), row) <==>
            Check(Some(SEEDED), shares, u, JournalResource(row), VIEW) == Allowed
  {
    CheckView(shares, u, CollectorResource(row));
    CheckView(shares, u, JournalResource(row));
  }

  /** Admins list everything; for everyone else, lists leave out exactly the unlisted rows neither owned nor shared. */
  lemma ListScopeIsAccessMinusUnlisted(shares: set<Share>, u: Caller, args: seq<Arg>, row: SpecimenRow)
    ensures AdmitsSpecimen(SpecimenListScope(u, args), shares, row) <==>
            && AdmitsSpecimen(SpecimenAccessScope(u, args), shares, row)
            && (IsAdmin(u) || !(row.visibility == Unlisted
                                && (u.id == NIL_ID || (row.author != u.id && Share(Specimens, row.id, u.id) !in shares))))
  {
    SharedRow(shares, args, row.id, u.id);
  }

  /** A scope binds its parameter behind those already bound. */
  lemma ScopesKeepArgs(u: Caller, args: seq<Arg>)
    ensures args <= OwnerScope(u, args).1 && args <= SpecimenListScope(u, args).1 && args <= SpecimenAccessScope(u, args).1
  {}
}
