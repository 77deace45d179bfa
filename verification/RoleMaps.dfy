// Turning an authenticator's maps into claims about one user.
module RoleMaps {
  import opened Hierarchy
  import A = Attributes
  import E = Expansion

  // Exactly the first present key among these decides, in this order.
  datatype GroupsTrigger = GroupsTrigger(hasOr: Option<seq<string>>, hasAnd: Option<seq<string>>,
    hasNot: Option<seq<string>>)

  datatype Trigger =
    | Groups(groups: GroupsTrigger)
    | Attrs(conditions: A.Trigger, join: Option<string>)
    | Always
    | Never
    | Invalid

  datatype MapType = AllowMap | SuperuserMap | TeamMap | OrganizationMap | RoleMap | OtherMap

  datatype AuthMap = AuthMap(enabled: bool, revoke: bool, triggers: seq<Trigger>, kind: MapType, templates: E.Templates)

  // What the identity provider says about the user: groups, and attributes as triggers and as
  // templates read them.
  datatype User = User(groups: seq<string>, data: A.AttributeList, attrs: E.UserAttrs)

  // What a role definition is scoped to.
  datatype RoleKind = SystemRole | OrganizationRole | TeamRole | ObjectRole

  datatype Env = Env(text: A.Text, isSpace: char -> bool, roles: map<string, RoleKind>)

  // ---- triggers ----

  function Folded(t: A.Text, xs: seq<string>): set<string> {
    set x | x in xs :: t.fold(x)
  }

  function ProcessGroups(t: A.Text, c: GroupsTrigger, groups: seq<string>): A.TriggerResult {
    var mine := Folded(t, groups);
    if c.hasOr.Some? then (if mine * Folded(t, c.hasOr.value) != {} then A.Allow else A.Skip)
    else if c.hasAnd.Some? then (if Folded(t, c.hasAnd.value) <= mine then A.Allow else A.Skip)
    else if c.hasNot.Some? then (if Folded(t, c.hasNot.value) * mine == {} then A.Allow else A.Skip)
    else A.Skip
  }

  // Names compare by their folded form; the first key present decides, and a user is never denied.
  lemma GroupsMean(t: A.Text, c: GroupsTrigger, groups: seq<string>)
    ensures c.hasOr.Some? ==> (ProcessGroups(t, c, groups) == A.Allow <==>
              exists g, n :: g in groups && n in c.hasOr.value && t.fold(g) == t.fold(n))
    ensures c.hasOr.None? && c.hasAnd.Some? ==> (ProcessGroups(t, c, groups) == A.Allow <==>
              forall n :: n in c.hasAnd.value ==> exists g :: g in groups && t.fold(g) == t.fold(n))
    ensures c.hasOr.None? && c.hasAnd.None? && c.hasNot.Some? ==> (ProcessGroups(t, c, groups) == A.Allow <==>
              !exists g, n :: g in groups && n in c.hasNot.value && t.fold(g) == t.fold(n))
    ensures c.hasOr.None? && c.hasAnd.None? && c.hasNot.None? ==> ProcessGroups(t, c, groups) == A.Skip
    ensures ProcessGroups(t, c, groups) == A.Allow || ProcessGroups(t, c, groups) == A.Skip
  {
    SharedFold(t, groups, if c.hasOr.Some? then c.hasOr.value else []);
    SharedFold(t, groups, if c.hasNot.Some? then c.hasNot.value else []);
    if c.hasAnd.Some? && Folded(t, c.hasAnd.value) <= Folded(t, groups) {
      forall n | n in c.hasAnd.value ensures exists g :: g in groups && t.fold(g) == t.fold(n) {
        assert t.fold(n) in Folded(t, c.hasAnd.value);
      }
    }
  }

  lemma SharedFold(t: A.Text, groups: seq<string>, names: seq<string>)
    ensures Folded(t, groups) * Folded(t, names) != {} <==>
      exists g, n :: g in groups && n in names && t.fold(g) == t.fold(n)
  {
    var both := Folded(t, groups) * Folded(t, names);
    if both != {} {
      var x :| x in both;
      var g :| g in groups && t.fold(g) == x;
      var n :| n in names && t.fold(n) == x;
    }
    if g, n :| g in groups && n in names && t.fold(g) == t.fold(n) {
      assert t.fold(g) in both;
    }
  }

  function TriggerResultOf(env: Env, user: User, trigger: Trigger): A.TriggerResult {
    match trigger
    case Groups(c) => ProcessGroups(env.text, c, user.groups)
    case Attrs(conditions, join) =>
      if A.Meets(env.text, user.data, join, conditions) then A.Allow else A.Skip
    case Always => A.Allow
    case Never => A.Deny
    case Invalid => A.Skip
  }

  // A map with several triggers goes by the last of them.
  function LastResult(env: Env, user: User, triggers: seq<Trigger>): A.TriggerResult {
    if triggers == [] then A.Skip else TriggerResultOf(env, user, triggers[|triggers| - 1])
  }

  // None when the map does not apply to the user.
  function Verdict(env: Env, user: User, m: AuthMap): Option<bool> {
    if !m.enabled || Invalid in m.triggers then None
    else match LastResult(env, user, m.triggers)
      case Allow => Some(true)
      case Deny => Some(false)
      case Skip => if m.revoke then Some(false) else None
  }

  // The last trigger alone counts. A map that is disabled or has an invalid trigger says nothing.
  // Revoking turns silence into a refusal and changes nothing else.
  lemma VerdictMeans(env: Env, user: User, m: AuthMap)
    ensures !m.enabled || Invalid in m.triggers ==> Verdict(env, user, m).None?
    ensures m.enabled && m.triggers == [] ==> Verdict(env, user, m) == if m.revoke then Some(false) else None
    ensures m.enabled && Invalid !in m.triggers && m.triggers != [] ==>
      Verdict(env, user, m) ==
        match m.triggers[|m.triggers| - 1]
        case Always => Some(true)
        case Never => Some(false)
        case Groups(c) => if ProcessGroups(env.text, c, user.groups) == A.Allow then Some(true)
                          else if m.revoke then Some(false) else None
        case Attrs(conditions, join) =>
          if A.Meets(env.text, user.data, join, conditions) then Some(true)
          else if m.revoke then Some(false) else None
        case Invalid => None
    ensures Verdict(env, user, m.(revoke := true)) ==
      if m.enabled && Invalid !in m.triggers && Verdict(env, user, m.(revoke := false)).None? then Some(false)
      else Verdict(env, user, m.(revoke := false))
  {
    if m.triggers != [] {
      var last := m.triggers[|m.triggers| - 1];
      assert last in m.triggers;
      if last.Groups? { GroupsMean(env.text, last.groups, user.groups); }
    }
  }

  // ---- roles ----

  predicate IsEmpty(env: Env, value: Option<string>) {
    value.None? || forall c :: c in value.value ==> env.isSpace(c)
  }

  // check_role_type finds something to object to
  predicate RoleErrors(env: Env, kind: MapType, e: E.Expanded) {
    if e.role.None? || e.role.value !in env.roles then true
    else
      var role := env.roles[e.role.value];
      if role.SystemRole? && kind.RoleMap? then !IsEmpty(env, e.organization) || !IsEmpty(env, e.team)
      else
        || (kind.OrganizationMap? && !role.OrganizationRole?)
        || (kind.TeamMap? && !role.TeamRole?)
        || ((role.OrganizationRole? || role.TeamRole?) && IsEmpty(env, e.organization))
        || (role.TeamRole? && IsEmpty(env, e.team))
        || (kind.RoleMap? && !role.OrganizationRole? && !role.TeamRole?)
  }

  // A role in the system, in an organization, or in a team of an organization.
  datatype RoleKey = RoleKey(role: string, organization: Option<string>, team: Option<string>)

  predicate HasExpansions(kind: MapType) {
    kind.TeamMap? || kind.OrganizationMap? || kind.RoleMap?
  }

  // What one expansion of a map is about, if it is understood.
  function KeyOf(env: Env, kind: MapType, e: E.Expanded): (k: Option<RoleKey>)
    ensures k.Some? && k.value.team.Some? ==> k.value.organization.Some?
  {
    if RoleErrors(env, kind, e) then None
    else if (kind.TeamMap? || kind.RoleMap?) && !IsEmpty(env, e.organization) && !IsEmpty(env, e.team) &&
      !IsEmpty(env, e.role)
    then Some(RoleKey(e.role.value, e.organization, e.team))
    else if (kind.OrganizationMap? || kind.RoleMap?) && !IsEmpty(env, e.organization) && !IsEmpty(env, e.role)
    then Some(RoleKey(e.role.value, e.organization, None))
    else if kind.RoleMap? && !IsEmpty(env, e.role) && IsEmpty(env, e.organization) && IsEmpty(env, e.team)
    then Some(RoleKey(e.role.value, None, None))
    else None
  }

  // What a map of each kind claims, by the role it names. A name counts when it has a character
  // that is not white space. A role of an organization that a role map gives together with a team
  // is claimed in the team.
  lemma KeyByKind(env: Env, kind: MapType, e: E.Expanded, role: RoleKind)
    requires e.role.Some? && e.role.value in env.roles && env.roles[e.role.value] == role
    requires exists c :: c in e.role.value && !env.isSpace(c)
    ensures var org := e.organization.Some? && exists c :: c in e.organization.value && !env.isSpace(c);
            var team := e.team.Some? && exists c :: c in e.team.value && !env.isSpace(c);
            && (kind.TeamMap? ==>
                  KeyOf(env, kind, e) ==
                  if role.TeamRole? && org && team then Some(RoleKey(e.role.value, e.organization, e.team)) else None)
            && (kind.OrganizationMap? ==>
                  KeyOf(env, kind, e) ==
                  if role.OrganizationRole? && org then Some(RoleKey(e.role.value, e.organization, None)) else None)
            && (kind.RoleMap? && role.SystemRole? ==>
                  KeyOf(env, kind, e) ==
                  if org || team then None else Some(RoleKey(e.role.value, None, None)))
            && (kind.RoleMap? && role.OrganizationRole? ==>
                  KeyOf(env, kind, e) ==
                  if !org then None else Some(RoleKey(e.role.value, e.organization, if team then e.team else None)))
            && (kind.RoleMap? && role.TeamRole? ==>
                  KeyOf(env, kind, e) ==
                  if org && team then Some(RoleKey(e.role.value, e.organization, e.team)) else None)
    ensures role.ObjectRole? || !(kind.TeamMap? || kind.OrganizationMap? || kind.RoleMap?) ==> KeyOf(env, kind, e).None?
  {
  }

  // A role that is not named, not known, or blank is claimed nowhere.
  lemma NoKeyWithoutRole(env: Env, kind: MapType, e: E.Expanded)
    requires e.role.None? || e.role.value !in env.roles || forall c :: c in e.role.value ==> env.isSpace(c)
    ensures KeyOf(env, kind, e).None?
  {
  }

  // ---- the flat meaning: the last applicable map about a question answers it ----

  datatype Question =
    | AboutRole(key: RoleKey)
    | AboutTeam(organization: string, team: string)
    | AboutOrganization(organization: string)
    | AboutAccess
    | AboutSuperuser

  predicate Concerns(k: RoleKey, q: Question) {
    match q
    case AboutRole(key) => k == key
    case AboutTeam(org, team) => k.organization == Some(org) && k.team == Some(team)
    case AboutOrganization(org) => k.organization == Some(org) && k.team.None?
    case AboutAccess => false
    case AboutSuperuser => false
  }

  ghost predicate Touches(env: Env, user: User, m: AuthMap, q: Question) {
    match q
    case AboutAccess => m.kind.AllowMap?
    case AboutSuperuser => m.kind.SuperuserMap?
    case _ =>
      HasExpansions(m.kind) &&
      exists e :: E.IsExpansion(m.templates, user.attrs, e) && ExpansionConcerns(env, m.kind, e, q)
  }

  // Which maps are about a question, expansion by expansion.
  lemma TouchesMeans(env: Env, user: User, m: AuthMap, k: RoleKey, org: string, team: string)
    requires m.kind.TeamMap? || m.kind.OrganizationMap? || m.kind.RoleMap?
    ensures Touches(env, user, m, AboutRole(k)) <==>
      exists e :: E.IsExpansion(m.templates, user.attrs, e) && KeyOf(env, m.kind, e) == Some(k)
    ensures Touches(env, user, m, AboutTeam(org, team)) <==>
      exists e, role :: E.IsExpansion(m.templates, user.attrs, e) &&
        KeyOf(env, m.kind, e) == Some(RoleKey(role, Some(org), Some(team)))
    ensures Touches(env, user, m, AboutOrganization(org)) <==>
      exists e, role :: E.IsExpansion(m.templates, user.attrs, e) &&
        KeyOf(env, m.kind, e) == Some(RoleKey(role, Some(org), None))
  {
    forall e | E.IsExpansion(m.templates, user.attrs, e) && KeyOf(env, m.kind, e).Some?
      ensures var key := KeyOf(env, m.kind, e).value; key == RoleKey(key.role, key.organization, key.team)
    {
    }
  }

  predicate ExpansionConcerns(env: Env, kind: MapType, e: E.Expanded, q: Question) {
    KeyOf(env, kind, e).Some? && Concerns(KeyOf(env, kind, e).value, q)
  }

  ghost function LastApplicable(env: Env, user: User, maps: seq<AuthMap>, q: Question): Option<bool> {
    if maps == [] then None
    else
      var m := maps[|maps| - 1];
      if Applies(env, user, m, q) then Verdict(env, user, m)
      else LastApplicable(env, user, maps[..|maps| - 1], q)
  }

  // Map i gives the answer, and no later applicable map is about the question.
  ghost predicate Decides(env: Env, user: User, maps: seq<AuthMap>, q: Question, i: nat) {
    && i < |maps| && Applies(env, user, maps[i], q)
    && (forall j :: i < j < |maps| ==> !Applies(env, user, maps[j], q))
  }

  ghost predicate Applies(env: Env, user: User, m: AuthMap, q: Question) {
    Verdict(env, user, m).Some? && Touches(env, user, m, q)
  }

  // The last applicable map, said without recursion: its verdict is the answer.
  lemma {:induction false} AnswerIsOfTheLast(env: Env, user: User, maps: seq<AuthMap>, q: Question, i: nat)
    requires Decides(env, user, maps, q, i)
    ensures LastApplicable(env, user, maps, q) == Verdict(env, user, maps[i])
  {
    var n := |maps| - 1;
    if i < n {
      assert !Applies(env, user, maps[n], q);
      assert forall j :: i < j < n ==> maps[..n][j] == maps[j];
      AnswerIsOfTheLast(env, user, maps[..n], q, i);
    }
  }

  // And there is no answer exactly when no map applies.
  lemma {:induction false} NoAnswerIff(env: Env, user: User, maps: seq<AuthMap>, q: Question)
    ensures LastApplicable(env, user, maps, q).None? <==> forall m :: m in maps ==> !Applies(env, user, m, q)
  {
    if maps != [] {
      var n := |maps| - 1;
      NoAnswerIff(env, user, maps[..n], q);
      assert maps == maps[..n] + [maps[n]];
      if Applies(env, user, maps[n], q) {
        assert maps[n] in maps;
      } else {
        assert forall m :: m in maps <==> m in maps[..n] || m == maps[n];
      }
    }
  }

  ghost predicate SomeConcern(env: Env, kind: MapType, es: seq<E.Expanded>, q: Question) {
    exists e :: e in es && ExpansionConcerns(env, kind, e, q)
  }

  lemma OneMoreConcern(env: Env, kind: MapType, es: seq<E.Expanded>, e: E.Expanded, q: Question)
    ensures SomeConcern(env, kind, es + [e], q) <==> SomeConcern(env, kind, es, q) || ExpansionConcerns(env, kind, e, q)
  {
    assert forall x :: x in es + [e] <==> x in es || x == e;
  }

  // ---- the nested dictionaries ----

  datatype OrgRoles = OrgRoles(roles: map<string, bool>, teams: map<string, map<string, bool>>)

  function At<K, V>(m: map<K, V>, k: K): Option<V> {
    if k in m then Some(m[k]) else None
  }

  class ClaimsInProgress {
    var system: map<string, bool>
    var organizations: map<string, OrgRoles>
    var teamMembership: map<string, map<string, bool>>
    var organizationMembership: map<string, bool>

    constructor ()
      ensures system == map[] && organizations == map[] && teamMembership == map[] && organizationMembership == map[]
    {
      system, organizations, teamMembership, organizationMembership := map[], map[], map[], map[];
    }

    function RoleAt(k: RoleKey): Option<bool>
      reads this
    {
      if k.organization.None? then (if k.team.None? then At(system, k.role) else None)
      else if k.organization.value !in organizations then None
      else
        var org := organizations[k.organization.value];
        if k.team.None? then At(org.roles, k.role)
        else if k.team.value !in org.teams then None
        else At(org.teams[k.team.value], k.role)
    }

    function Answer(q: Question): Option<bool>
      reads this
    {
      match q
      case AboutRole(k) => RoleAt(k)
      case AboutTeam(org, team) => if org in teamMembership then At(teamMembership[org], team) else None
      case AboutOrganization(org) => At(organizationMembership, org)
      case AboutAccess => None
      case AboutSuperuser => None
    }

    // _add_rbac_role_mapping
    method AddRole(granted: bool, k: RoleKey)
      requires k.team.Some? ==> k.organization.Some?
      modifies `system, `organizations
      ensures forall x :: RoleAt(x) == if x == k then Some(granted) else old(RoleAt(x))
    {
      if k.organization.None? {
        system := system[k.role := granted];
        return;
      }
      var org := if k.organization.value in organizations then organizations[k.organization.value]
                 else OrgRoles(map[], map[]);
      if k.team.None? {
        org := org.(roles := org.roles[k.role := granted]);
      } else {
        var team := if k.team.value in org.teams then org.teams[k.team.value] else map[];
        org := org.(teams := org.teams[k.team.value := team[k.role := granted]]);
      }
      organizations := organizations[k.organization.value := org];
    }

    // What one understood expansion changes.
    method Apply(granted: bool, k: RoleKey)
      requires k.team.Some? ==> k.organization.Some?
      modifies this
      ensures forall q: Question :: Answer(q) == if Concerns(k, q) then Some(granted) else old(Answer(q))
    {
      if k.team.Some? {
        var org := k.organization.value;
        var teams := if org in teamMembership then teamMembership[org] else map[];
        teamMembership := teamMembership[org := teams[k.team.value := granted]];
      } else if k.organization.Some? {
        organizationMembership := organizationMembership[k.organization.value := granted];
      }
      AddRole(granted, k);
    }

    // All the expansions of one applicable map.
    method ApplyMap(env: Env, user: User, m: AuthMap, granted: bool)
      requires HasExpansions(m.kind)
      modifies this
      ensures forall q: Question :: !q.AboutAccess? && !q.AboutSuperuser? ==>
                            Answer(q) == if Touches(env, user, m, q) then Some(granted) else old(Answer(q))
    {
      var expansions := E.ExpandSyntax(m.templates, user.attrs);
      for i := 0 to |expansions|
        invariant forall q: Question :: Answer(q) ==
                              if SomeConcern(env, m.kind, expansions[..i], q) then Some(granted) else old(Answer(q))
      {
        assert expansions[..i + 1] == expansions[..i] + [expansions[i]];
        forall q ensures SomeConcern(env, m.kind, expansions[..i + 1], q) <==>
                         SomeConcern(env, m.kind, expansions[..i], q) ||
                         ExpansionConcerns(env, m.kind, expansions[i], q)
        {
          OneMoreConcern(env, m.kind, expansions[..i], expansions[i], q);
        }
        var key := KeyOf(env, m.kind, expansions[i]);
        if key.Some? {
          Apply(granted, key.value);
        }
      }
      assert expansions[..|expansions|] == expansions;
    }
  }

  method TriggersResult(env: Env, user: User, triggers: seq<Trigger>) returns (r: A.TriggerResult)
    ensures r == LastResult(env, user, triggers)
  {
    r := A.Skip;
    for i := 0 to |triggers|
      invariant r == LastResult(env, user, triggers[..i])
    {
      match triggers[i] {
        case Groups(c) => r := ProcessGroups(env.text, c, user.groups);
        case Attrs(conditions, join) => r := A.ProcessUserAttributes(env.text, conditions, join, user.data);
        case Always => r := A.Allow;
        case Never => r := A.Deny;
        case Invalid => r := A.Skip;
      }
    }
    assert triggers[..|triggers|] == triggers;
  }

  method CreateClaims(env: Env, user: User, maps: seq<AuthMap>)
    returns (accessAllowed: bool, isSuperuser: Option<bool>, claims: ClaimsInProgress)
    ensures fresh(claims)
    ensures forall q: Question :: !q.AboutAccess? && !q.AboutSuperuser? ==>
      claims.Answer(q) == LastApplicable(env, user, maps, q)
    ensures isSuperuser == LastApplicable(env, user, maps, AboutSuperuser)
    ensures accessAllowed <==> LastApplicable(env, user, maps, AboutAccess) != Some(false)
  {
    accessAllowed, isSuperuser := true, None;
    claims := new ClaimsInProgress();
    for i := 0 to |maps|
      invariant fresh(claims)
      invariant forall q: Question :: !q.AboutAccess? && !q.AboutSuperuser? ==>
                              claims.Answer(q) == LastApplicable(env, user, maps[..i], q)
      invariant isSuperuser == LastApplicable(env, user, maps[..i], AboutSuperuser)
      invariant accessAllowed <==> LastApplicable(env, user, maps[..i], AboutAccess) != Some(false)
    {
      var m := maps[i];
      assert maps[..i + 1][..i] == maps[..i];
      var result := A.Skip;
      if m.enabled && Invalid !in m.triggers {
        result := TriggersResult(env, user, m.triggers);
        if m.revoke && result == A.Skip {
          result := A.Deny;
        }
      }
      if result != A.Skip {
        var granted := result == A.Allow;
        if m.kind.AllowMap? {
          accessAllowed := granted;
        } else if m.kind.SuperuserMap? {
          isSuperuser := Some(granted);
        } else if HasExpansions(m.kind) {
          claims.ApplyMap(env, user, m, granted);
        }
      }
    }
    assert maps[..|maps|] == maps;
  }
}
