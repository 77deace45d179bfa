// One login from end to end: the maps of the authenticator decide the claims, and
// the claims decide the user's assignments.
module Login {
  import opened Graphs
  import opened Hierarchy
  import opened RoleMaps
  import C = Reconcile

  // ---- dictionaries as the lists their iteration gives ----

  ghost predicate ListsRoles(list: C.RoleClaims, d: map<string, bool>) {
    && (forall e :: e in list ==> e.0 in d && d[e.0] == e.1)
    && (forall r :: r in d ==> (r, d[r]) in list)
  }

  ghost predicate TeamsFrom(list: seq<(string, C.RoleClaims)>, d: map<string, map<string, bool>>) {
    forall e :: e in list ==> e.0 in d && ListsRoles(e.1, d[e.0])
  }

  ghost predicate ListsTeams(list: seq<(string, C.RoleClaims)>, d: map<string, map<string, bool>>) {
    TeamsFrom(list, d) && forall t :: t in d ==> exists e :: e in list && e.0 == t
  }

  ghost predicate OrgsFrom(list: seq<(string, C.OrgClaims)>, d: map<string, OrgRoles>) {
    forall e :: e in list ==> e.0 in d && ListsRoles(e.1.roles, d[e.0].roles) && ListsTeams(e.1.teams, d[e.0].teams)
  }

  ghost predicate ListsOrgs(list: seq<(string, C.OrgClaims)>, d: map<string, OrgRoles>) {
    OrgsFrom(list, d) && forall o :: o in d ==> exists e :: e in list && e.0 == o
  }

  method RoleItems(d: map<string, bool>) returns (list: C.RoleClaims)
    ensures ListsRoles(list, d)
  {
    list := [];
    var rest := d.Keys;
    while rest != {}
      invariant rest <= d.Keys
      invariant forall e :: e in list ==> e.0 in d && d[e.0] == e.1
      invariant forall r :: r in d && r !in rest ==> (r, d[r]) in list
      decreases rest
    {
      var r :| r in rest;
      rest := rest - {r};
      list := list + [(r, d[r])];
    }
  }

  method TeamItems(d: map<string, map<string, bool>>) returns (list: seq<(string, C.RoleClaims)>)
    ensures ListsTeams(list, d)
  {
    list := [];
    var rest := d.Keys;
    while rest != {}
      invariant rest <= d.Keys && TeamsFrom(list, d)
      invariant forall t :: t in d && t !in rest ==> exists e :: e in list && e.0 == t
      decreases rest
    {
      var t :| t in rest;
      rest := rest - {t};
      var roles := RoleItems(d[t]);
      ghost var before := list;
      list := list + [(t, roles)];
      assert (t, roles) in list && forall e :: e in before ==> e in list;
    }
  }

  method OrgItems(d: map<string, OrgRoles>) returns (list: seq<(string, C.OrgClaims)>)
    ensures ListsOrgs(list, d)
  {
    list := [];
    var rest := d.Keys;
    while rest != {}
      invariant rest <= d.Keys && OrgsFrom(list, d)
      invariant forall o :: o in d && o !in rest ==> exists e :: e in list && e.0 == o
      decreases rest
    {
      var o :| o in rest;
      rest := rest - {o};
      var roles := RoleItems(d[o].roles);
      var teams := TeamItems(d[o].teams);
      ghost var before := list;
      list := list + [(o, C.OrgClaims(roles, teams))];
      assert (o, C.OrgClaims(roles, teams)) in list && forall e :: e in before ==> e in list;
    }
  }

  // ---- what the flattened claims say ----

  lemma {:induction false} FirstOfJoined(a: seq<C.Claim>, b: seq<C.Claim>, k: C.Key)
    ensures C.FirstClaim(a + b, k) == if C.FirstClaim(a, k).Some? then C.FirstClaim(a, k) else C.FirstClaim(b, k)
    decreases |a|
  {
    if a == [] {
      assert a + b == b;
    } else {
      assert (a + b)[1..] == a[1..] + b;
      FirstOfJoined(a[1..], b, k);
    }
  }

  lemma {:induction false} NothingElsewhere(claims: seq<C.Claim>, k: C.Key)
    requires forall c :: c in claims ==> c.at != k.at
    ensures C.FirstClaim(claims, k).None?
    decreases |claims|
  {
    if claims != [] {
      assert claims[0] in claims;
      NothingElsewhere(claims[1..], k);
    }
  }

  lemma {:induction false} FirstOfRoles(claims: seq<C.Claim>, d: map<string, bool>, k: C.Key)
    requires forall c :: c in claims ==> c.at == k.at && c.role in d && d[c.role] == c.granted
    requires k.role in d ==> exists c :: c in claims && c.role == k.role
    ensures C.FirstClaim(claims, k) == At(d, k.role)
    decreases |claims|
  {
    if claims != [] {
      var head := claims[0];
      assert head in claims;
      if C.Key(head.role, head.at) != k {
        assert claims == [head] + claims[1..];
        FirstOfRoles(claims[1..], d, k);
      }
    }
  }

  lemma FirstAt(roles: C.RoleClaims, d: map<string, bool>, k: C.Key)
    requires ListsRoles(roles, d)
    ensures C.FirstClaim(C.ClaimsAt(roles, k.at), k) == At(d, k.role)
  {
    var claims := C.ClaimsAt(roles, k.at);
    forall c | c in claims
      ensures c.at == k.at && c.role in d && d[c.role] == c.granted
    {
      var i :| 0 <= i < |claims| && claims[i] == c;
      assert (roles[i].0, roles[i].1) in roles;
    }
    if k.role in d {
      assert (k.role, d[k.role]) in roles;
      var i :| 0 <= i < |roles| && roles[i] == (k.role, d[k.role]);
      assert claims[i].role == k.role && claims[i] in claims;
    }
    FirstOfRoles(claims, d, k);
  }

  // Different names are different organizations and teams, and the two types differ.
  ghost predicate NamesTellApart(w: C.World) {
    && w.orgType != w.teamType
    && (forall a, b :: a in w.orgByName && b in w.orgByName && w.orgByName[a] == w.orgByName[b] ==> a == b)
    && (forall a, b :: a in w.teamByName && b in w.teamByName && w.teamByName[a] == w.teamByName[b] ==> a == b)
  }

  lemma AtOf(roles: C.RoleClaims, at: Option<Obj>)
    ensures forall c :: c in C.ClaimsAt(roles, at) ==> c.at == at
  {
  }

  lemma {:induction false} OrgTypes(w: C.World, orgs: seq<(string, C.OrgClaims)>)
    ensures forall c :: c in C.OrgRoleClaims(w, orgs) ==> c.at.Some? && c.at.value.ct == w.orgType
  {
    if orgs != [] {
      OrgTypes(w, orgs[1..]);
    }
  }

  lemma {:induction false} TeamTypes(w: C.World, org: int, teams: seq<(string, C.RoleClaims)>)
    ensures forall c :: c in C.TeamClaims(w, org, teams) ==> c.at.Some? && c.at.value.ct == w.teamType
  {
    if teams != [] {
      TeamTypes(w, org, teams[1..]);
    }
  }

  lemma {:induction false} TeamRoleTypes(w: C.World, orgs: seq<(string, C.OrgClaims)>)
    ensures forall c :: c in C.TeamRoleClaims(w, orgs) ==> c.at.Some? && c.at.value.ct == w.teamType
  {
    if orgs != [] {
      if orgs[0].0 in w.orgByName {
        TeamTypes(w, w.orgByName[orgs[0].0], orgs[0].1.teams);
      }
      TeamRoleTypes(w, orgs[1..]);
    }
  }

  function OrgKey(w: C.World, role: string, org: string): C.Key
    requires org in w.orgByName
  {
    C.Key(role, Some(Obj(w.orgType, w.orgByName[org])))
  }

  function TeamKey(w: C.World, role: string, org: string, team: string): C.Key
    requires org in w.orgByName && (w.orgByName[org], team) in w.teamByName
  {
    C.Key(role, Some(Obj(w.teamType, w.teamByName[(w.orgByName[org], team)])))
  }

  function OrgRoleAt(d: map<string, OrgRoles>, org: string, role: string): Option<bool> {
    if org in d then At(d[org].roles, role) else None
  }

  function TeamRoleAt(d: map<string, map<string, bool>>, team: string, role: string): Option<bool> {
    if team in d then At(d[team], role) else None
  }

  lemma {:induction false} FirstOfOrgs(w: C.World, orgs: seq<(string, C.OrgClaims)>, d: map<string, OrgRoles>,
    role: string, org: string)
    requires NamesTellApart(w) && org in w.orgByName && OrgsFrom(orgs, d)
    ensures C.FirstClaim(C.OrgRoleClaims(w, orgs), OrgKey(w, role, org)) ==
            if exists e :: e in orgs && e.0 == org then OrgRoleAt(d, org, role) else None
  {
    if orgs != [] {
      var k, head := OrgKey(w, role, org), orgs[0];
      assert head in orgs && orgs == [head] + orgs[1..];
      assert forall e :: e in orgs[1..] ==> e in orgs;
      FirstOfOrgs(w, orgs[1..], d, role, org);
      if head.0 in w.orgByName {
        var at := Some(Obj(w.orgType, w.orgByName[head.0]));
        var claims := C.ClaimsAt(head.1.roles, at);
        FirstOfJoined(claims, C.OrgRoleClaims(w, orgs[1..]), k);
        if head.0 == org {
          FirstAt(head.1.roles, d[org].roles, k);
        } else {
          AtOf(head.1.roles, at);
          NothingElsewhere(claims, k);
        }
      } else {
        assert C.OrgRoleClaims(w, orgs) == C.OrgRoleClaims(w, orgs[1..]);
      }
    }
  }

  lemma {:induction false} FirstOfTeams(w: C.World, orgId: int, teams: seq<(string, C.RoleClaims)>,
    d: map<string, map<string, bool>>, role: string, org: string, team: string)
    requires NamesTellApart(w) && org in w.orgByName && (w.orgByName[org], team) in w.teamByName && TeamsFrom(teams, d)
    ensures C.FirstClaim(C.TeamClaims(w, orgId, teams), TeamKey(w, role, org, team)) ==
            if orgId == w.orgByName[org] && exists e :: e in teams && e.0 == team then TeamRoleAt(d, team, role)
            else None
  {
    if teams != [] {
      var k, head := TeamKey(w, role, org, team), teams[0];
      assert head in teams && teams == [head] + teams[1..];
      assert forall e :: e in teams[1..] ==> e in teams;
      FirstOfTeams(w, orgId, teams[1..], d, role, org, team);
      if (orgId, head.0) in w.teamByName {
        var at := Some(Obj(w.teamType, w.teamByName[(orgId, head.0)]));
        var claims := C.ClaimsAt(head.1, at);
        FirstOfJoined(claims, C.TeamClaims(w, orgId, teams[1..]), k);
        if (orgId, head.0) == (w.orgByName[org], team) {
          FirstAt(head.1, d[team], k);
        } else {
          AtOf(head.1, at);
          NothingElsewhere(claims, k);
        }
      } else {
        assert C.TeamClaims(w, orgId, teams) == C.TeamClaims(w, orgId, teams[1..]);
      }
    }
  }

  lemma {:induction false} FirstOfTeamRoles(w: C.World, orgs: seq<(string, C.OrgClaims)>, d: map<string, OrgRoles>,
    role: string, org: string, team: string)
    requires NamesTellApart(w) && org in w.orgByName && (w.orgByName[org], team) in w.teamByName && OrgsFrom(orgs, d)
    ensures C.FirstClaim(C.TeamRoleClaims(w, orgs), TeamKey(w, role, org, team)) ==
            if org in d && exists e :: e in orgs && e.0 == org then TeamRoleAt(d[org].teams, team, role) else None
  {
    if orgs != [] {
      var k, head := TeamKey(w, role, org, team), orgs[0];
      assert head in orgs && orgs == [head] + orgs[1..];
      assert forall e :: e in orgs[1..] ==> e in orgs;
      FirstOfTeamRoles(w, orgs[1..], d, role, org, team);
      if head.0 in w.orgByName {
        var first := C.TeamClaims(w, w.orgByName[head.0], head.1.teams);
        FirstOfJoined(first, C.TeamRoleClaims(w, orgs[1..]), k);
        FirstOfTeams(w, w.orgByName[head.0], head.1.teams, d[head.0].teams, role, org, team);
      } else {
        assert C.TeamRoleClaims(w, orgs) == C.TeamRoleClaims(w, orgs[1..]);
      }
    }
  }

  // What the flattened claims say first about an existing organization or team,
  // or about the system, is what the nested role maps answer.
  lemma FirstIsAnswer(w: C.World, login: C.LoginClaims, claims: ClaimsInProgress, role: string, org: string,
    team: string)
    requires NamesTellApart(w)
    requires ListsRoles(login.system, claims.system) && ListsOrgs(login.organizations, claims.organizations)
    ensures C.FirstClaim(C.AllClaims(w, login), C.Key(role, None)) ==
      claims.Answer(AboutRole(RoleKey(role, None, None)))
    ensures org in w.orgByName ==>
              C.FirstClaim(C.AllClaims(w, login), OrgKey(w, role, org)) ==
                claims.Answer(AboutRole(RoleKey(role, Some(org), None)))
    ensures org in w.orgByName && (w.orgByName[org], team) in w.teamByName ==>
              C.FirstClaim(C.AllClaims(w, login), TeamKey(w, role, org, team)) ==
              claims.Answer(AboutRole(RoleKey(role, Some(org), Some(team))))
  {
    var system, orgs := C.ClaimsAt(login.system, None), C.OrgRoleClaims(w, login.organizations);
    var teams := C.TeamRoleClaims(w, login.organizations);
    AtOf(login.system, None);
    OrgTypes(w, login.organizations);
    TeamRoleTypes(w, login.organizations);
    forall k
      ensures C.FirstClaim(C.AllClaims(w, login), k) ==
              if C.FirstClaim(system, k).Some? then C.FirstClaim(system, k)
              else if C.FirstClaim(orgs, k).Some? then C.FirstClaim(orgs, k) else C.FirstClaim(teams, k)
    {
      FirstOfJoined(system + orgs, teams, k);
      FirstOfJoined(system, orgs, k);
    }
    var top := C.Key(role, None);
    FirstAt(login.system, claims.system, top);
    NothingElsewhere(orgs, top);
    NothingElsewhere(teams, top);
    if org in w.orgByName {
      var k := OrgKey(w, role, org);
      NothingElsewhere(system, k);
      NothingElsewhere(teams, k);
      FirstOfOrgs(w, login.organizations, claims.organizations, role, org);
      if (w.orgByName[org], team) in w.teamByName {
        var tk := TeamKey(w, role, org, team);
        NothingElsewhere(system, tk);
        NothingElsewhere(orgs, tk);
        FirstOfTeamRoles(w, login.organizations, claims.organizations, role, org, team);
      }
    }
  }

  // ---- the whole login ----

  // What the maps decide about one assignment: the last applicable map about it;
  // without one it is kept unless the authenticator removes users.
  ghost predicate Outcome(env: Env, user: User, maps: seq<AuthMap>, key: RoleKey, removeUsers: bool, before: bool) {
    match LastApplicable(env, user, maps, AboutRole(key))
    case Some(granted) => granted
    case None => before && !removeUsers
  }

  predicate InOrg(w: C.World, a: C.Assignment, org: string) {
    org in w.orgByName && a == C.AssignmentOf(OrgKey(w, a.role, org))
  }

  predicate InTeam(w: C.World, a: C.Assignment, org: string, team: string) {
    org in w.orgByName && (w.orgByName[org], team) in w.teamByName && a == C.AssignmentOf(TeamKey(w, a.role, org, team))
  }

  // The question of the maps that an assignment answers: the system, or an organization or
  // a team found by name.
  ghost function PlaceOf(w: C.World, a: C.Assignment): Option<RoleKey> {
    if a.scope.Global? then Some(RoleKey(a.role, None, None))
    else if exists org :: InOrg(w, a, org) then
      var org :| InOrg(w, a, org);
      Some(RoleKey(a.role, Some(org), None))
    else if exists org, team :: InTeam(w, a, org, team) then
      var org, team :| InTeam(w, a, org, team);
      Some(RoleKey(a.role, Some(org), Some(team)))
    else None
  }

  // Assignments elsewhere are kept too, unless they are local and users are removed.
  ghost predicate MapsSay(env: Env, user: User, maps: seq<AuthMap>, w: C.World, removeUsers: bool,
    before: set<C.Assignment>, a: C.Assignment)
  {
    match PlaceOf(w, a)
    case Some(key) => Outcome(env, user, maps, key, removeUsers, a in before)
    case None => a in before && (removeUsers ==> !C.Cacheable(w, a))
  }

  // What the maps say about a role in the system, in an organization, in a team, and elsewhere.
  lemma SayMeans(env: Env, user: User, maps: seq<AuthMap>, w: C.World, removeUsers: bool, held: set<C.Assignment>,
    role: string, org: string, team: string)
    requires NamesTellApart(w)
    ensures MapsSay(env, user, maps, w, removeUsers, held, C.Assignment(role, C.Global)) <==>
      match LastApplicable(env, user, maps, AboutRole(RoleKey(role, None, None)))
      case Some(granted) => granted
      case None => C.Assignment(role, C.Global) in held && !removeUsers
    ensures org in w.orgByName ==>
      var a := C.Assignment(role, C.OnObject(w.orgType, C.Numeric(w.orgByName[org])));
      MapsSay(env, user, maps, w, removeUsers, held, a) <==>
        match LastApplicable(env, user, maps, AboutRole(RoleKey(role, Some(org), None)))
        case Some(granted) => granted
        case None => a in held && !removeUsers
    ensures org in w.orgByName && (w.orgByName[org], team) in w.teamByName ==>
      var a := C.Assignment(role, C.OnObject(w.teamType, C.Numeric(w.teamByName[(w.orgByName[org], team)])));
      MapsSay(env, user, maps, w, removeUsers, held, a) <==>
        match LastApplicable(env, user, maps, AboutRole(RoleKey(role, Some(org), Some(team))))
        case Some(granted) => granted
        case None => a in held && !removeUsers
  {
    if org in w.orgByName {
      var a := C.Assignment(role, C.OnObject(w.orgType, C.Numeric(w.orgByName[org])));
      assert InOrg(w, a, org);
      if (w.orgByName[org], team) in w.teamByName {
        var b := C.Assignment(role, C.OnObject(w.teamType, C.Numeric(w.teamByName[(w.orgByName[org], team)])));
        assert InTeam(w, b, org, team);
      }
    }
  }

  lemma SayElsewhere(env: Env, user: User, maps: seq<AuthMap>, w: C.World, removeUsers: bool, held: set<C.Assignment>,
    a: C.Assignment)
    requires a.scope.OnObject?
    requires forall org :: org in w.orgByName ==> a.scope != C.OnObject(w.orgType, C.Numeric(w.orgByName[org]))
    requires forall t :: t in w.teamByName ==> a.scope != C.OnObject(w.teamType, C.Numeric(w.teamByName[t]))
    ensures MapsSay(env, user, maps, w, removeUsers, held, a) <==>
      a in held && !(removeUsers && a.scope.ct in w.localTypes && a.scope.id.Numeric?)
  {
    assert forall org :: !InOrg(w, a, org);
    assert forall org, team :: !InTeam(w, a, org, team);
  }

  ghost predicate AsMapsSay(env: Env, user: User, maps: seq<AuthMap>, w: C.World, removeUsers: bool,
    before: set<C.Assignment>, after: set<C.Assignment>)
  {
    forall a :: a in after <==> MapsSay(env, user, maps, w, removeUsers, before, a)
  }

  // ---- what the surroundings guarantee ----

  // The roles the maps know are the roles of the service, by the type they apply to.
  ghost predicate SameRoles(env: Env, w: C.World) {
    forall r :: (
      && (r in env.roles <==> r in w.roleType)
      && (r in env.roles ==> env.roles[r] == KindOf(w, w.roleType[r])))
  }

  function KindOf(w: C.World, roleType: Option<TypeId>): RoleKind {
    if roleType.None? then SystemRole
    else if roleType.value == w.orgType then OrganizationRole
    else if roleType.value == w.teamType then TeamRole
    else ObjectRole
  }

  // Organizations and teams are local, told apart by name, and can be loaded.
  ghost predicate WorldFits(w: C.World) {
    && NamesTellApart(w) && w.orgType in w.localTypes && w.teamType in w.localTypes
    && (forall org :: org in w.orgByName ==> Obj(w.orgType, w.orgByName[org]) in w.resolvable)
    && (forall t :: t in w.teamByName ==> Obj(w.teamType, w.teamByName[t]) in w.resolvable)
  }

  // The login's lists hold what the maps claim.
  ghost predicate Carries(env: Env, user: User, maps: seq<AuthMap>, login: C.LoginClaims, claims: ClaimsInProgress)
    reads claims
  {
    && ListsRoles(login.system, claims.system) && ListsOrgs(login.organizations, claims.organizations)
    && (forall k :: claims.Answer(AboutRole(k)) == LastApplicable(env, user, maps, AboutRole(k)))
  }

  lemma LocalClaims(w: C.World, login: C.LoginClaims)
    requires w.orgType in w.localTypes && w.teamType in w.localTypes
    ensures C.ClaimsAreLocal(w, C.AllClaims(w, login))
  {
    AtOf(login.system, None);
    OrgTypes(w, login.organizations);
    TeamRoleTypes(w, login.organizations);
  }

  // A claim is about the system, or about an organization or a team found by name.
  ghost predicate KnownPlace(w: C.World, at: Option<Obj>) {
    || at.None?
    || (exists org :: org in w.orgByName && at == OrgKey(w, "", org).at)
    || (exists org, team :: org in w.orgByName && (w.orgByName[org], team) in w.teamByName &&
         at == TeamKey(w, "", org, team).at)
  }

  ghost predicate AtKnownPlaces(w: C.World, claims: seq<C.Claim>) {
    forall c :: c in claims ==> KnownPlace(w, c.at)
  }

  lemma {:induction false} OrgPlaces(w: C.World, orgs: seq<(string, C.OrgClaims)>)
    ensures AtKnownPlaces(w, C.OrgRoleClaims(w, orgs))
  {
    if orgs != [] {
      OrgPlaces(w, orgs[1..]);
      if orgs[0].0 in w.orgByName {
        AtOf(orgs[0].1.roles, OrgKey(w, "", orgs[0].0).at);
      }
    }
  }

  lemma {:induction false} TeamPlaces(w: C.World, org: string, teams: seq<(string, C.RoleClaims)>)
    requires org in w.orgByName
    ensures AtKnownPlaces(w, C.TeamClaims(w, w.orgByName[org], teams))
  {
    if teams != [] {
      TeamPlaces(w, org, teams[1..]);
      if (w.orgByName[org], teams[0].0) in w.teamByName {
        AtOf(teams[0].1, TeamKey(w, "", org, teams[0].0).at);
      }
    }
  }

  lemma {:induction false} TeamRolePlaces(w: C.World, orgs: seq<(string, C.OrgClaims)>)
    ensures AtKnownPlaces(w, C.TeamRoleClaims(w, orgs))
  {
    if orgs != [] {
      TeamRolePlaces(w, orgs[1..]);
      if orgs[0].0 in w.orgByName {
        TeamPlaces(w, orgs[0].0, orgs[0].1.teams);
      }
    }
  }

  lemma {:induction false} ClaimedSomewhere(w: C.World, claims: seq<C.Claim>, k: C.Key)
    requires AtKnownPlaces(w, claims)
    ensures C.FirstClaim(claims, k).Some? ==> KnownPlace(w, k.at)
    decreases |claims|
  {
    if claims != [] {
      assert claims[0] in claims;
      if C.Key(claims[0].role, claims[0].at) != k {
        ClaimedSomewhere(w, claims[1..], k);
      }
    }
  }

  lemma ClaimedAtPlace(w: C.World, login: C.LoginClaims, k: C.Key)
    ensures C.FirstClaim(C.AllClaims(w, login), k).Some? ==> KnownPlace(w, k.at)
  {
    AtOf(login.system, None);
    OrgPlaces(w, login.organizations);
    TeamRolePlaces(w, login.organizations);
    ClaimedSomewhere(w, C.AllClaims(w, login), k);
  }

  // A claim fits the role it names, except that an organization role may be claimed in a team.
  ghost predicate NamesRole(env: Env, k: RoleKey) {
    && k.role in env.roles
    && (k.organization.None? ==> env.roles[k.role].SystemRole?)
    && (k.organization.Some? && k.team.None? ==> env.roles[k.role].OrganizationRole?)
    && (k.team.Some? ==> env.roles[k.role].TeamRole? || env.roles[k.role].OrganizationRole?)
  }

  lemma {:induction false} AnswerNamesRole(env: Env, user: User, maps: seq<AuthMap>, k: RoleKey)
    ensures LastApplicable(env, user, maps, AboutRole(k)).Some? ==> NamesRole(env, k)
    decreases |maps|
  {
    if maps != [] {
      var m := maps[|maps| - 1];
      if Applies(env, user, m, AboutRole(k)) {
        var e :| E.IsExpansion(m.templates, user.attrs, e) && ExpansionConcerns(env, m.kind, e, AboutRole(k));
        assert KeyOf(env, m.kind, e) == Some(k);
      } else {
        AnswerNamesRole(env, user, maps[..|maps| - 1], k);
      }
    }
  }

  // ---- the condition ----

  // A held local assignment on an object that cannot be loaded, when users are removed.
  predicate Lost(w: C.World, removeUsers: bool, a: C.Assignment) {
    && removeUsers && a.scope.OnObject? && a.scope.ct in w.localTypes && a.scope.id.Numeric?
    && Obj(a.scope.ct, a.scope.id.n) !in w.resolvable
  }

  // A system role newly claimed although users may not have any.
  ghost predicate RefusedInSystem(env: Env, user: User, maps: seq<AuthMap>, w: C.World, held: set<C.Assignment>,
    role: string)
  {
    && !w.systemRolesForUsers && C.Assignment(role, C.Global) !in held
    && LastApplicable(env, user, maps, AboutRole(RoleKey(role, None, None))) == Some(true)
  }

  // An organization role claimed in an existing team.
  ghost predicate RefusedInTeam(env: Env, user: User, maps: seq<AuthMap>, w: C.World, role: string, org: string,
    team: string)
  {
    && role in env.roles && env.roles[role].OrganizationRole?
    && org in w.orgByName && (w.orgByName[org], team) in w.teamByName
    && LastApplicable(env, user, maps, AboutRole(RoleKey(role, Some(org), Some(team)))) == Some(true)
  }

  ghost predicate Refused(env: Env, user: User, maps: seq<AuthMap>, w: C.World, held: set<C.Assignment>) {
    || (exists role :: RefusedInSystem(env, user, maps, w, held, role))
    || (exists role, org, team :: RefusedInTeam(env, user, maps, w, role, org, team))
  }

  lemma SaysIsWanted(env: Env, user: User, maps: seq<AuthMap>, w: C.World, removeUsers: bool, login: C.LoginClaims,
    claims: ClaimsInProgress, before: set<C.Assignment>, a: C.Assignment)
    requires WorldFits(w) && SameRoles(env, w) && C.HeldFits(w, before) && Carries(env, user, maps, login, claims)
    ensures MapsSay(env, user, maps, w, removeUsers, before, a) <==>
      C.Wanted(w, before, C.AllClaims(w, login), removeUsers, a)
  {
    match PlaceOf(w, a)
    case Some(key) =>
      AnswerNamesRole(env, user, maps, key);
      FirstIsAnswer(w, login, claims, key.role, if key.organization.Some? then key.organization.value else "",
        if key.team.Some? then key.team.value else "");
      assert C.FirstClaim(C.AllClaims(w, login), C.KeyOf(a)) == LastApplicable(env, user, maps, AboutRole(key));
    case None =>
      if C.HasKey(a) {
        var k := C.KeyOf(a);
        assert C.AssignmentOf(k) == a;
        ClaimedAtPlace(w, login, k);
        NoPlace(w, a, k);
      }
  }

  lemma NoPlace(w: C.World, a: C.Assignment, k: C.Key)
    requires PlaceOf(w, a).None? && C.AssignmentOf(k) == a
    ensures !KnownPlace(w, k.at)
  {
    if org :| org in w.orgByName && k.at == OrgKey(w, "", org).at {
      assert InOrg(w, a, org);
    } else if org, team :|
        org in w.orgByName && (w.orgByName[org], team) in w.teamByName && k.at == TeamKey(w, "", org, team).at
    {
      assert InTeam(w, a, org, team);
    }
  }

  // Nothing dangles exactly when nothing held is lost: claims are about objects that can be loaded.
  lemma DanglingIsLost(w: C.World, removeUsers: bool, login: C.LoginClaims, held: set<C.Assignment>, k: C.Key)
    requires WorldFits(w)
    ensures removeUsers && C.Dangling(w, held, C.AllClaims(w, login), k) <==>
              C.AssignmentOf(k) in held && Lost(w, removeUsers, C.AssignmentOf(k))
  {
    ClaimedAtPlace(w, login, k);
  }

  lemma MisfitIsRefused(env: Env, user: User, maps: seq<AuthMap>, w: C.World, login: C.LoginClaims,
    claims: ClaimsInProgress, held: set<C.Assignment>)
    requires WorldFits(w) && SameRoles(env, w) && C.HeldFits(w, held) && Carries(env, user, maps, login, claims)
    ensures C.AddsFit(w, held, C.AllClaims(w, login)) <==> !Refused(env, user, maps, w, held)
  {
    if k :| C.Misfit(w, held, C.AllClaims(w, login), k) {
      ClaimedAtPlace(w, login, k);
      MisfitOf(env, user, maps, w, login, claims, held, k);
    }
    if role :| RefusedInSystem(env, user, maps, w, held, role) {
      SystemRefusal(env, user, maps, w, login, claims, held, role);
    }
    if role, org, team :| RefusedInTeam(env, user, maps, w, role, org, team) {
      TeamRefusal(env, user, maps, w, login, claims, held, role, org, team);
    }
  }

  lemma SystemRefusal(env: Env, user: User, maps: seq<AuthMap>, w: C.World, login: C.LoginClaims,
    claims: ClaimsInProgress, held: set<C.Assignment>, role: string)
    requires WorldFits(w) && SameRoles(env, w) && Carries(env, user, maps, login, claims)
    requires RefusedInSystem(env, user, maps, w, held, role)
    ensures C.Misfit(w, held, C.AllClaims(w, login), C.Key(role, None))
  {
    AnswerNamesRole(env, user, maps, RoleKey(role, None, None));
    FirstIsAnswer(w, login, claims, role, "", "");
  }

  lemma TeamRefusal(env: Env, user: User, maps: seq<AuthMap>, w: C.World, login: C.LoginClaims,
    claims: ClaimsInProgress, held: set<C.Assignment>, role: string, org: string, team: string)
    requires WorldFits(w) && SameRoles(env, w) && C.HeldFits(w, held) && Carries(env, user, maps, login, claims)
    requires RefusedInTeam(env, user, maps, w, role, org, team)
    ensures C.Misfit(w, held, C.AllClaims(w, login), TeamKey(w, role, org, team))
  {
    FirstIsAnswer(w, login, claims, role, org, team);
  }

  lemma MisfitOf(env: Env, user: User, maps: seq<AuthMap>, w: C.World, login: C.LoginClaims,
    claims: ClaimsInProgress, held: set<C.Assignment>, k: C.Key)
    requires WorldFits(w) && SameRoles(env, w) && Carries(env, user, maps, login, claims)
    requires C.Misfit(w, held, C.AllClaims(w, login), k) && KnownPlace(w, k.at)
    ensures Refused(env, user, maps, w, held)
  {
    if k.at.None? {
      FirstIsAnswer(w, login, claims, k.role, "", "");
      AnswerNamesRole(env, user, maps, RoleKey(k.role, None, None));
      assert RefusedInSystem(env, user, maps, w, held, k.role);
    } else if org :| org in w.orgByName && k.at == OrgKey(w, "", org).at {
      FirstIsAnswer(w, login, claims, k.role, org, "");
      AnswerNamesRole(env, user, maps, RoleKey(k.role, Some(org), None));
      assert false;
    } else {
      var org, team :| org in w.orgByName && (w.orgByName[org], team) in w.teamByName &&
        k.at == TeamKey(w, "", org, team).at;
      TeamMisfit(env, user, maps, w, login, claims, held, k.role, org, team);
    }
  }

  lemma TeamMisfit(env: Env, user: User, maps: seq<AuthMap>, w: C.World, login: C.LoginClaims,
    claims: ClaimsInProgress, held: set<C.Assignment>, role: string, org: string, team: string)
    requires NamesTellApart(w) && SameRoles(env, w) && Carries(env, user, maps, login, claims)
    requires org in w.orgByName && (w.orgByName[org], team) in w.teamByName
    requires C.Misfit(w, held, C.AllClaims(w, login), TeamKey(w, role, org, team))
    ensures RefusedInTeam(env, user, maps, w, role, org, team)
  {
    FirstIsAnswer(w, login, claims, role, org, team);
    AnswerNamesRole(env, user, maps, RoleKey(role, Some(org), Some(team)));
  }

  // What reconciling leaves, in terms of the maps.
  lemma ReconciledIsSaid(env: Env, user: User, maps: seq<AuthMap>, w: C.World, removeUsers: bool, login: C.LoginClaims,
    claims: ClaimsInProgress, held: set<C.Assignment>, after: set<C.Assignment>, raised: bool)
    requires WorldFits(w) && SameRoles(env, w) && C.HeldFits(w, held) && Carries(env, user, maps, login, claims)
    requires C.Reconciled(w, held, C.AllClaims(w, login), removeUsers, after, raised)
    ensures AsMapsSay(env, user, maps, w, removeUsers, held, after) <==>
              !Refused(env, user, maps, w, held) && forall a :: a in held ==> !Lost(w, removeUsers, a)
    ensures !Refused(env, user, maps, w, held) ==> forall a :: a in after <==>
              MapsSay(env, user, maps, w, removeUsers, held, a) || (a in held && Lost(w, removeUsers, a))
    ensures forall a ::
              (a in after <==> a in held) || (a in after <==> MapsSay(env, user, maps, w, removeUsers, held, a))
  {
    forall a
      ensures MapsSay(env, user, maps, w, removeUsers, held, a) <==>
        C.Wanted(w, held, C.AllClaims(w, login), removeUsers, a)
      ensures C.LeftBehind(w, held, C.AllClaims(w, login), removeUsers, a) <==> a in held && Lost(w, removeUsers, a)
    {
      SaysIsWanted(env, user, maps, w, removeUsers, login, claims, held, a);
      if C.HasKey(a) {
        assert C.AssignmentOf(C.KeyOf(a)) == a;
        DanglingIsLost(w, removeUsers, login, held, C.KeyOf(a));
      }
    }
    MisfitIsRefused(env, user, maps, w, login, claims, held);
    if removeUsers && !C.NothingDangles(w, held, C.AllClaims(w, login)) {
      var k :| C.Dangling(w, held, C.AllClaims(w, login), k);
      DanglingIsLost(w, removeUsers, login, held, k);
    }
    if a :| a in held && Lost(w, removeUsers, a) {
      assert C.Dangling(w, held, C.AllClaims(w, login), C.KeyOf(a));
    }
  }

  // A denied login changes nothing. An allowed one leaves every assignment as the maps say if
  // and only if no claim is refused and nothing held is lost; if none is refused, what is lost
  // stays; and in any case every assignment ends as it was or as the maps say.
  method LogIn(env: Env, user: User, maps: seq<AuthMap>, w: C.World, removeUsers: bool, held: set<C.Assignment>)
    returns (allowed: bool, after: set<C.Assignment>)
    requires WorldFits(w) && SameRoles(env, w) && C.HeldFits(w, held)
    ensures C.HeldFits(w, after)
    ensures allowed <==> LastApplicable(env, user, maps, AboutAccess) != Some(false)
    ensures !allowed ==> after == held
    ensures allowed ==> (AsMapsSay(env, user, maps, w, removeUsers, held, after) <==>
              !Refused(env, user, maps, w, held) && forall a :: a in held ==> !Lost(w, removeUsers, a))
    ensures allowed && !Refused(env, user, maps, w, held) ==> forall a :: a in after <==>
              MapsSay(env, user, maps, w, removeUsers, held, a) || (a in held && Lost(w, removeUsers, a))
    ensures allowed ==> forall a ::
              (a in after <==> a in held) || (a in after <==> MapsSay(env, user, maps, w, removeUsers, held, a))
  {
    var superuser, claims;
    allowed, superuser, claims := CreateClaims(env, user, maps);
    after := held;
    if allowed {
      var system := RoleItems(claims.system);
      var organizations := OrgItems(claims.organizations);
      var login := C.LoginClaims(system, organizations);
      LocalClaims(w, login);
      var reconcile := new C.ReconcileUser(w, removeUsers, held);
      var raised, gave, took := reconcile.ManagePermissions(login);
      after := reconcile.held;
      ReconciledIsSaid(env, user, maps, w, removeUsers, login, claims, held, after, raised);
    }
  }
}
