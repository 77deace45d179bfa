// The index-encoded claims of a user, and the form of them that is hashed.
module ClaimsEncoding {
  import opened Graphs
  import opened Hierarchy
  import opened SortedText

  // One object-scoped assignment of a managed role, with the resource data joined to it.
  datatype Held = Held(role: string, id: string, name: string, model: string)

  // Absent texts are empty.
  datatype ObjectData = ObjectData(id: string, localId: string, name: string, org: Option<nat>)

  datatype RoleData = RoleData(model: string, objects: seq<nat>)

  datatype Claims = Claims(
    objects: map<string, seq<ObjectData>>,
    objectRoles: map<string, RoleData>,
    globalRoles: seq<string>)

  datatype HashableForm = HashableForm(globalRoles: seq<string>, objectRoles: map<string, seq<string>>)

  datatype OrgInfo = OrgInfo(id: string, name: string)

  const ORGANIZATION := "organization"
  const TEAM := "team"

  // ---- decoding ----

  function IdIn(objects: seq<ObjectData>, index: nat): seq<string> {
    if index >= |objects| then []
    else if objects[index].id != "" then [objects[index].id]
    else if objects[index].localId != "" then [objects[index].localId]
    else []
  }

  function Decoded(objects: seq<ObjectData>, indexes: seq<nat>): seq<string> {
    if indexes == [] then []
    else Decoded(objects, indexes[..|indexes| - 1]) + IdIn(objects, indexes[|indexes| - 1])
  }

  // Index by index: an index in range gives the id of its object, or else its local id, unless
  // both are empty; other indexes give nothing.
  lemma {:induction false} DecodedMeans(objects: seq<ObjectData>, a: seq<nat>, b: seq<nat>, i: nat)
    ensures Decoded(objects, a + b) == Decoded(objects, a) + Decoded(objects, b)
    ensures i < |objects| && objects[i].id != "" ==> Decoded(objects, [i]) == [objects[i].id]
    ensures i < |objects| && objects[i].id == "" && objects[i].localId != "" ==>
      Decoded(objects, [i]) == [objects[i].localId]
    ensures i >= |objects| || (objects[i].id == "" && objects[i].localId == "") ==> Decoded(objects, [i]) == []
    decreases |b|
  {
    assert [i][..0] == [] && Decoded(objects, [i]) == Decoded(objects, []) + IdIn(objects, i);
    if b == [] {
      assert a + b == a;
    } else {
      assert (a + b)[..|a + b| - 1] == a + b[..|b| - 1];
      DecodedMeans(objects, a, b[..|b| - 1], i);
    }
  }

  lemma {:induction false} DecodedHas(objects: seq<ObjectData>, indexes: seq<nat>, id: string)
    ensures id in Decoded(objects, indexes) <==> id != "" && exists i :: (
      0 <= i < |indexes| && indexes[i] < |objects| &&
      id == if objects[indexes[i]].id != "" then objects[indexes[i]].id else objects[indexes[i]].localId)
  {
    if indexes != [] {
      var n := |indexes| - 1;
      DecodedHas(objects, indexes[..n], id);
      forall i | 0 <= i < n ensures indexes[..n][i] == indexes[i] {}
    }
  }

  function ObjectsOf(claims: Claims, model: string): seq<ObjectData> {
    if model in claims.objects then claims.objects[model] else []
  }

  function DecodedRole(claims: Claims, role: string): seq<string>
    requires role in claims.objectRoles
  {
    Decoded(ObjectsOf(claims, claims.objectRoles[role].model), claims.objectRoles[role].objects)
  }

  function FormOfClaims(claims: Claims): HashableForm {
    HashableForm(
      Sorted(claims.globalRoles),
      map role | role in claims.objectRoles :: Sorted(DecodedRole(claims, role)))
  }

  // The ids behind the indexes of one role.
  method DecodeRole(objects: seq<ObjectData>, indexes: seq<nat>) returns (ids: seq<string>)
    ensures ids == Decoded(objects, indexes)
    ensures forall id :: id in ids <==> id != "" && exists i :: (
      0 <= i < |indexes| && indexes[i] < |objects| &&
      id == if objects[indexes[i]].id != "" then objects[indexes[i]].id else objects[indexes[i]].localId)
  {
    ids := [];
    for i := 0 to |indexes|
      invariant ids == Decoded(objects, indexes[..i])
    {
      assert indexes[..i + 1][..i] == indexes[..i];
      if indexes[i] < |objects| {
        var id := if objects[indexes[i]].id != "" then objects[indexes[i]].id else objects[indexes[i]].localId;
        if id != "" {
          ids := ids + [id];
        }
      }
    }
    assert indexes[..|indexes|] == indexes;
    forall id { DecodedHas(objects, indexes, id); }
  }

  // The roles with their ids in order, each as often as it was decoded.
  lemma FormMeans(claims: Claims, role: string)
    ensures var form := FormOfClaims(claims);
      && Ordered(form.globalRoles) && multiset(form.globalRoles) == multiset(claims.globalRoles)
      && (role in form.objectRoles <==> role in claims.objectRoles)
      && (role in claims.objectRoles ==>
            Ordered(form.objectRoles[role]) && multiset(form.objectRoles[role]) == multiset(DecodedRole(claims, role)))
  {
    SortedSorts(claims.globalRoles);
    if role in claims.objectRoles { SortedSorts(DecodedRole(claims, role)); }
  }

  method GetUserClaimsHashableForm(claims: Claims) returns (form: HashableForm)
    ensures form == FormOfClaims(claims)
  {
    var objectRoles: map<string, seq<string>> := map[];
    var rest := claims.objectRoles.Keys;
    while rest != {}
      invariant rest <= claims.objectRoles.Keys
      invariant objectRoles ==
        map role | role in claims.objectRoles && role !in rest :: Sorted(DecodedRole(claims, role))
      decreases rest
    {
      var role :| role in rest;
      var ids := DecodeRole(ObjectsOf(claims, claims.objectRoles[role].model), claims.objectRoles[role].objects);
      objectRoles := objectRoles[role := Sorted(ids)];
      rest := rest - {role};
    }
    form := HashableForm(Sorted(claims.globalRoles), objectRoles);
  }

  // ---- what the claims are about ----

  function IdsOf(held: seq<Held>, role: string): seq<string> {
    if held == [] then []
    else IdsOf(held[..|held| - 1], role)
         + (if held[|held| - 1].role == role then [held[|held| - 1].id] else [])
  }

  function RolesOf(held: seq<Held>): set<string> {
    set h | h in held :: h.role
  }

  // Per role, the sorted ids of the objects the user holds it on.
  function FormOf(held: seq<Held>, globalRoles: seq<string>): HashableForm {
    HashableForm(Sorted(globalRoles), map role | role in RolesOf(held) :: Sorted(IdsOf(held, role)))
  }

  // A role definition has one content type, and every id prints as something.
  ghost predicate WellFormed(held: seq<Held>) {
    && (forall h :: h in held ==> h.id != "")
    && (forall g, h :: g in held && h in held && g.role == h.role ==> g.model == h.model)
  }

  // ---- the arrays being built ----

  ghost predicate Indexed(objects: seq<ObjectData>, index: map<string, nat>) {
    && (forall id :: id in index ==> index[id] < |objects| && objects[index[id]].id == id)
    && (forall i :: 0 <= i < |objects| ==> objects[i].id in index && index[objects[i].id] == i)
  }

  function IndexOf(index: map<string, map<string, nat>>, model: string): map<string, nat> {
    if model in index then index[model] else map[]
  }

  // Objects are only ever added at the end, and keep their id.
  ghost predicate Grows(before: seq<ObjectData>, after: seq<ObjectData>) {
    && |before| <= |after|
    && (forall i :: 0 <= i < |before| ==> before[i].id == after[i].id && before[i].name == after[i].name)
  }

  function IdSet(objects: seq<ObjectData>): set<string> {
    set o | o in objects :: o.id
  }

  lemma IndexedWith(objects: seq<ObjectData>, index: map<string, nat>, o: ObjectData)
    requires Indexed(objects, index) && o.id !in index
    ensures Indexed(objects + [o], index[o.id := |objects|]) && Grows(objects, objects + [o])
    ensures o.id !in IdSet(objects)
  {
    forall i | 0 <= i < |objects|
      ensures objects[i].id != o.id
    {
      assert objects[i].id in index;
    }
    forall x | x in objects
      ensures x.id != o.id
    {
      var i :| 0 <= i < |objects| && objects[i] == x;
    }
  }

  ghost predicate AllIndexed(arrays: map<string, seq<ObjectData>>, index: map<string, map<string, nat>>) {
    && index.Keys <= arrays.Keys
    && (forall m :: m in arrays ==> Indexed(arrays[m], IndexOf(index, m)))
  }

  lemma StaysIndexed(arrays: map<string, seq<ObjectData>>, index: map<string, map<string, nat>>, model: string,
    objects: seq<ObjectData>, positions: map<string, nat>)
    requires AllIndexed(arrays, index) && Indexed(objects, positions)
    ensures AllIndexed(arrays[model := objects], index[model := positions])
  {
  }

  class ClaimsObjects {
    var arrays: map<string, seq<ObjectData>>
    var index: map<string, map<string, nat>>

    ghost predicate Valid()
      reads this
    {
      && ORGANIZATION in arrays && TEAM in arrays
      && AllIndexed(arrays, index)
    }

    constructor ()
      ensures Valid() && forall m :: m in arrays ==> arrays[m] == []
    {
      arrays := map[ORGANIZATION := [], TEAM := []];
      index := map[];
    }

    // The position of an object, which is added when it is new.
    method Position(model: string, id: string, name: string) returns (at: nat)
      requires Valid()
      modifies this
      ensures Valid()
      ensures arrays == WithObject(old(arrays), model, ObjectData(id, "", name, None))
      ensures at < |arrays[model]| && arrays[model][at].id == id
      ensures arrays.Keys == old(arrays.Keys) + {model}
      ensures forall m :: m in old(arrays) && m != model ==> arrays[m] == old(arrays)[m]
      ensures var was := if model in old(arrays) then old(arrays)[model] else [];
              arrays[model] == if exists o :: o in was && o.id == id then was
                               else was + [ObjectData(id, "", name, None)]
    {
      var objects := if model in arrays then arrays[model] else [];
      var positions := IndexOf(index, model);
      assert Indexed(objects, positions);
      if id !in positions {
        IndexedWith(objects, positions, ObjectData(id, "", name, None));
        positions := positions[id := |objects|];
        objects := objects + [ObjectData(id, "", name, None)];
      } else {
        assert objects[positions[id]] in objects;
      }
      StaysIndexed(arrays, index, model, objects, positions);
      WithObjectMeans(arrays, model, ObjectData(id, "", name, None));
      index := index[model := positions];
      arrays := arrays[model := objects];
      at := positions[id];
    }

    // One team's turn: its organization is added if missing, and pointed at.
    method PointTeamAtOrg(i: nat, org: OrgInfo)
      requires Valid() && i < |arrays[TEAM]|
      modifies this
      ensures Valid()
      ensures arrays.Keys == old(arrays.Keys) && |arrays[TEAM]| == |old(arrays)[TEAM]|
      ensures arrays == WithTeamOrg(WithObject(old(arrays), ORGANIZATION, ObjectData(org.id, "", org.name, None)),
                                    i, arrays[TEAM][i].org)
      ensures arrays[TEAM][i].org.Some? && arrays[TEAM][i].org.value < |arrays[ORGANIZATION]|
      ensures arrays[ORGANIZATION][arrays[TEAM][i].org.value].id == org.id
    {
      var at := Position(ORGANIZATION, org.id, org.name);
      var teams := arrays[TEAM];
      var pointed := teams[i := teams[i].(org := Some(at))];
      assert Indexed(teams, IndexOf(index, TEAM));
      assert Indexed(pointed, IndexOf(index, TEAM));
      arrays := arrays[TEAM := pointed];
    }

    // The body of the loop over teams.
    method ResolveTeam(i: nat, teamOrg: map<string, OrgInfo>, ghost before: map<string, seq<ObjectData>>)
      requires Valid() && ORGANIZATION in before && TEAM in before && i < |before[TEAM]|
      requires before[TEAM][i].org.None? && Resolved(before, arrays, i, teamOrg)
      modifies this
      ensures Valid() && Resolved(before, arrays, i + 1, teamOrg)
    {
      ghost var soFar := arrays;
      if arrays[TEAM][i].id in teamOrg {
        PointTeamAtOrg(i, teamOrg[arrays[TEAM][i].id]);
      }
      ResolvedOneMore(before, soFar, arrays, i, teamOrg);
    }

    // Points every team at its organization, adding organizations that are missing.
    method ResolveTeamOrganizationReferences(teamOrg: map<string, OrgInfo>)
      requires Valid()
      requires forall t :: t in arrays[TEAM] ==> t.org == None
      modifies this
      ensures Valid() && AllGrow(old(arrays), arrays)
      ensures TeamsPointAtOrgs(arrays, teamOrg)
      ensures OrgsFrom(arrays, |old(arrays)[ORGANIZATION]|, teamOrg)
      ensures arrays.Keys == old(arrays.Keys)
      ensures forall m :: m in arrays && m != ORGANIZATION ==> |arrays[m]| == |old(arrays)[m]|
      ensures IdSet(arrays[ORGANIZATION]) == IdSet(old(arrays)[ORGANIZATION]) +
        OrgIds(IdSet(old(arrays)[TEAM]), teamOrg)
    {
      ghost var teams := arrays[TEAM];
      ghost var before := arrays;
      assert teams[..0] == [];
      for i := 0 to |arrays[TEAM]|
        invariant Valid()
        invariant Resolved(before, arrays, i, teamOrg)
      {
        ResolveTeam(i, teamOrg, before);
      }
      assert teams[..|teams|] == teams;
    }
  }

  // Every list of objects only grew.
  ghost predicate AllGrow(before: map<string, seq<ObjectData>>, after: map<string, seq<ObjectData>>) {
    forall m :: m in before ==> m in after && Grows(before[m], after[m])
  }

  ghost function WithObject(arrays: map<string, seq<ObjectData>>, model: string, o: ObjectData)
    : map<string, seq<ObjectData>>
  {
    var was := if model in arrays then arrays[model] else [];
    arrays[model := if o.id in IdSet(was) then was else was + [o]]
  }

  ghost function WithTeamOrg(arrays: map<string, seq<ObjectData>>, i: nat, org: Option<nat>)
    : map<string, seq<ObjectData>>
    requires TEAM in arrays && i < |arrays[TEAM]|
  {
    arrays[TEAM := arrays[TEAM][i := arrays[TEAM][i].(org := org)]]
  }

  lemma WithObjectMeans(arrays: map<string, seq<ObjectData>>, model: string, o: ObjectData)
    ensures var after := WithObject(arrays, model, o);
            var was := if model in arrays then arrays[model] else [];
            && after.Keys == arrays.Keys + {model}
            && (forall m :: m in arrays && m != model ==> after[m] == arrays[m])
            && after[model] == if exists x :: x in was && x.id == o.id then was else was + [o]
  {
  }

  lemma WithObjectGrows(arrays: map<string, seq<ObjectData>>, model: string, o: ObjectData)
    ensures AllGrow(arrays, WithObject(arrays, model, o))
    ensures IdSet(WithObject(arrays, model, o)[model]) ==
            (if model in arrays then IdSet(arrays[model]) else {}) + {o.id}
  {
    var was := if model in arrays then arrays[model] else [];
    IdSetOfAdded(was, o);
  }

  // Organizations from position n on are those of some teams.
  ghost predicate OrgsFrom(arrays: map<string, seq<ObjectData>>, n: nat, teamOrg: map<string, OrgInfo>)
    requires ORGANIZATION in arrays
  {
    forall i :: n <= i < |arrays[ORGANIZATION]| ==>
      exists t :: t in teamOrg &&
        arrays[ORGANIZATION][i] == ObjectData(teamOrg[t].id, "", teamOrg[t].name, None)
  }

  // The state of the resolving loop when the first n teams are done.
  ghost predicate Resolved(before: map<string, seq<ObjectData>>, arrays: map<string, seq<ObjectData>>, n: nat,
    teamOrg: map<string, OrgInfo>)
    requires ORGANIZATION in before && TEAM in before && n <= |before[TEAM]|
  {
    && arrays.Keys == before.Keys && AllGrow(before, arrays)
    && (forall m :: m in before && m != ORGANIZATION ==> |arrays[m]| == |before[m]|)
    && (forall j :: n <= j < |before[TEAM]| ==> arrays[TEAM][j] == before[TEAM][j])
    && (forall j :: 0 <= j < n ==> PointsAtOrg(arrays, arrays[TEAM][j], teamOrg))
    && OrgsFrom(arrays, |before[ORGANIZATION]|, teamOrg)
    && IdSet(arrays[ORGANIZATION]) == IdSet(before[ORGANIZATION]) + OrgIds(IdSet(before[TEAM][..n]), teamOrg)
  }

  lemma OrgsFromMore(soFar: map<string, seq<ObjectData>>, after: map<string, seq<ObjectData>>, from: nat, n: nat,
    team: string, teamOrg: map<string, OrgInfo>)
    requires ORGANIZATION in soFar && TEAM in soFar && TEAM in after && n < |soFar[TEAM]| && n < |after[TEAM]|
    requires team in teamOrg && OrgsFrom(soFar, from, teamOrg)
    requires var org := ObjectData(teamOrg[team].id, "", teamOrg[team].name, None);
             after == WithTeamOrg(WithObject(soFar, ORGANIZATION, org), n, after[TEAM][n].org)
    ensures OrgsFrom(after, from, teamOrg)
  {
    var was := soFar[ORGANIZATION];
    assert after[ORGANIZATION] == was || after[ORGANIZATION] ==
      was + [ObjectData(teamOrg[team].id, "", teamOrg[team].name, None)];
  }

  lemma ResolvedOneMore(before: map<string, seq<ObjectData>>, soFar: map<string, seq<ObjectData>>,
    arrays: map<string, seq<ObjectData>>, n: nat, teamOrg: map<string, OrgInfo>)
    requires ORGANIZATION in before && TEAM in before && n < |before[TEAM]|
    requires Resolved(before, soFar, n, teamOrg)
    requires before[TEAM][n].org.None?
    requires TEAM in arrays && n < |arrays[TEAM]|
    requires if before[TEAM][n].id in teamOrg then
               var org := teamOrg[before[TEAM][n].id];
               && arrays == WithTeamOrg(WithObject(soFar, ORGANIZATION, ObjectData(org.id, "", org.name, None)),
                                        n, arrays[TEAM][n].org)
               && PointsAtOrg(arrays, arrays[TEAM][n], teamOrg)
             else arrays == soFar
    ensures Resolved(before, arrays, n + 1, teamOrg)
  {
    OrgIdsOfFirst(before[TEAM], n, teamOrg);
    if before[TEAM][n].id in teamOrg {
      ResolvedWithOrg(before, soFar, arrays, n, teamOrg);
    }
  }

  lemma ResolvedWithOrg(before: map<string, seq<ObjectData>>, soFar: map<string, seq<ObjectData>>,
    arrays: map<string, seq<ObjectData>>, n: nat, teamOrg: map<string, OrgInfo>)
    requires ORGANIZATION in before && TEAM in before && n < |before[TEAM]|
    requires Resolved(before, soFar, n, teamOrg) && before[TEAM][n].id in teamOrg
    requires TEAM in arrays && n < |arrays[TEAM]|
    requires var org := teamOrg[before[TEAM][n].id];
             && arrays == WithTeamOrg(WithObject(soFar, ORGANIZATION, ObjectData(org.id, "", org.name, None)),
                                      n, arrays[TEAM][n].org)
             && PointsAtOrg(arrays, arrays[TEAM][n], teamOrg)
    ensures Resolved(before, arrays, n + 1, teamOrg)
  {
    var team := before[TEAM][n];
    var org := ObjectData(teamOrg[team.id].id, "", teamOrg[team.id].name, None);
    OrgIdsOfFirst(before[TEAM], n, teamOrg);
    TeamPointedGrows(before, soFar, org, n, arrays[TEAM][n].org);
    OrgsFromMore(soFar, arrays, |before[ORGANIZATION]|, n, team.id, teamOrg);
    PointersSurvive(soFar, arrays, n, teamOrg);
  }

  lemma OrgIdsOfFirst(teams: seq<ObjectData>, n: nat, teamOrg: map<string, OrgInfo>)
    requires n < |teams|
    ensures OrgIds(IdSet(teams[..n + 1]), teamOrg) ==
            OrgIds(IdSet(teams[..n]), teamOrg) + (if teams[n].id in teamOrg then {teamOrg[teams[n].id].id} else {})
  {
    assert teams[..n + 1] == teams[..n] + [teams[n]];
    IdSetOfAdded(teams[..n], teams[n]);
    OrgIdsWith(IdSet(teams[..n]), teams[n].id, teamOrg);
  }

  lemma TeamPointedGrows(before: map<string, seq<ObjectData>>, soFar: map<string, seq<ObjectData>>, org: ObjectData,
    n: nat, at: Option<nat>)
    requires TEAM in soFar && ORGANIZATION in soFar && n < |soFar[TEAM]| && AllGrow(before, soFar)
    ensures var after := WithTeamOrg(WithObject(soFar, ORGANIZATION, org), n, at);
            && AllGrow(before, after) && AllGrow(soFar, after) && after.Keys == soFar.Keys
            && (forall m :: m in soFar && m != ORGANIZATION ==> |after[m]| == |soFar[m]|)
            && (forall j :: 0 <= j < |soFar[TEAM]| && j != n ==> after[TEAM][j] == soFar[TEAM][j])
            && IdSet(after[ORGANIZATION]) == IdSet(soFar[ORGANIZATION]) + {org.id}
  {
    var added := WithObject(soFar, ORGANIZATION, org);
    WithObjectGrows(soFar, ORGANIZATION, org);
    TeamOrgGrows(added, n, at);
    GrowthIsTransitive(soFar, added, WithTeamOrg(added, n, at));
    GrowthIsTransitive(before, soFar, WithTeamOrg(added, n, at));
  }

  lemma GrowthIsTransitive(a: map<string, seq<ObjectData>>, b: map<string, seq<ObjectData>>,
    c: map<string, seq<ObjectData>>)
    requires AllGrow(a, b) && AllGrow(b, c)
    ensures AllGrow(a, c)
  {
  }

  lemma TeamOrgGrows(arrays: map<string, seq<ObjectData>>, i: nat, org: Option<nat>)
    requires TEAM in arrays && ORGANIZATION in arrays && i < |arrays[TEAM]|
    ensures AllGrow(arrays, WithTeamOrg(arrays, i, org))
    ensures IdSet(WithTeamOrg(arrays, i, org)[ORGANIZATION]) == IdSet(arrays[ORGANIZATION])
  {
  }

  // Added organizations never invalidate an index already given out.
  lemma PointersSurvive(before: map<string, seq<ObjectData>>, after: map<string, seq<ObjectData>>, n: nat,
    teamOrg: map<string, OrgInfo>)
    requires ORGANIZATION in before && TEAM in before && n <= |before[TEAM]|
    requires AllGrow(before, after) && n <= |after[TEAM]|
    requires forall j :: 0 <= j < n ==> after[TEAM][j] == before[TEAM][j]
    requires forall j :: 0 <= j < n ==> PointsAtOrg(before, before[TEAM][j], teamOrg)
    ensures forall j :: 0 <= j < n ==> PointsAtOrg(after, after[TEAM][j], teamOrg)
  {
    assert Grows(before[ORGANIZATION], after[ORGANIZATION]);
    forall j | 0 <= j < n
      ensures PointsAtOrg(after, after[TEAM][j], teamOrg)
    {
      assert PointsAtOrg(before, before[TEAM][j], teamOrg);
    }
  }

  lemma OrgIdsWith(teams: set<string>, team: string, teamOrg: map<string, OrgInfo>)
    ensures OrgIds(teams + {team}, teamOrg) ==
            OrgIds(teams, teamOrg) + (if team in teamOrg then {teamOrg[team].id} else {})
  {
    assert forall t :: t in teams + {team} <==> t in teams || t == team;
  }

  lemma IdSetOfAdded(objects: seq<ObjectData>, o: ObjectData)
    ensures IdSet(objects + [o]) == IdSet(objects) + {o.id}
  {
    assert forall x :: x in objects + [o] <==> x in objects || x == o;
  }

  ghost function OrgIds(teams: set<string>, teamOrg: map<string, OrgInfo>): set<string> {
    set t | t in teams && t in teamOrg :: teamOrg[t].id
  }

  ghost predicate PointsAtOrg(arrays: map<string, seq<ObjectData>>, team: ObjectData, teamOrg: map<string, OrgInfo>)
    requires ORGANIZATION in arrays
  {
    if team.id in teamOrg then
      team.org.Some? && team.org.value < |arrays[ORGANIZATION]| &&
      arrays[ORGANIZATION][team.org.value].id == teamOrg[team.id].id
    else team.org.None?
  }

  ghost predicate TeamsPointAtOrgs(arrays: map<string, seq<ObjectData>>, teamOrg: map<string, OrgInfo>)
    requires ORGANIZATION in arrays && TEAM in arrays
  {
    forall t :: t in arrays[TEAM] ==> PointsAtOrg(arrays, t, teamOrg)
  }

  // ---- building the claims ----

  // The indexes stand, position by position, for the ids.
  ghost predicate StandFor(objects: seq<ObjectData>, indexes: seq<nat>, ids: seq<string>) {
    && |indexes| == |ids|
    && (forall j :: 0 <= j < |ids| ==> indexes[j] < |objects| && objects[indexes[j]].id == ids[j])
  }

  function IdsOfModel(held: seq<Held>, model: string): set<string> {
    set h | h in held && h.model == model :: h.id
  }

  ghost predicate RoleEncoded(arrays: map<string, seq<ObjectData>>, data: RoleData, ids: seq<string>) {
    data.model in arrays && StandFor(arrays[data.model], data.objects, ids)
  }

  // Every role's indexes stand for the ids it is held on.
  ghost predicate Encodes(arrays: map<string, seq<ObjectData>>, roles: map<string, RoleData>, held: seq<Held>) {
    roles.Keys == RolesOf(held) && RolesEncoded(arrays, roles, held) && ModelsFit(roles, held)
  }

  ghost predicate RolesEncoded(arrays: map<string, seq<ObjectData>>, roles: map<string, RoleData>, held: seq<Held>) {
    forall r :: r in roles ==> RoleEncoded(arrays, roles[r], IdsOf(held, r))
  }

  ghost predicate ModelsFit(roles: map<string, RoleData>, held: seq<Held>) {
    forall h :: h in held ==> h.role in roles && roles[h.role].model == h.model
  }

  // The arrays list the objects of the assignments, once each, not yet linked.
  ghost predicate Lists(arrays: map<string, seq<ObjectData>>, held: seq<Held>) {
    forall m :: m in arrays ==>
      IdSet(arrays[m]) == IdsOfModel(held, m) &&
      forall o :: o in arrays[m] ==>
        o.org.None? && exists h :: h in held && h.model == m && h.id == o.id && h.name == o.name
  }

  lemma StandForMore(before: seq<ObjectData>, after: seq<ObjectData>, indexes: seq<nat>, ids: seq<string>)
    requires StandFor(before, indexes, ids) && Grows(before, after)
    ensures StandFor(after, indexes, ids)
  {
  }

  lemma IdsOfAdded(held: seq<Held>, h: Held, role: string)
    ensures IdsOf(held + [h], role) == IdsOf(held, role) + if h.role == role then [h.id] else []
  {
    assert (held + [h])[..|held|] == held;
  }

  ghost function WithIndex(roles: map<string, RoleData>, h: Held, at: nat): map<string, RoleData> {
    var was := if h.role in roles then roles[h.role] else RoleData(h.model, []);
    roles[h.role := RoleData(was.model, was.objects + [at])]
  }

  lemma OneModelPerRole(held: seq<Held>, h: Held, roles: map<string, RoleData>)
    requires WellFormed(held + [h]) && h.role in roles
    requires roles.Keys == RolesOf(held) && ModelsFit(roles, held)
    ensures roles[h.role].model == h.model
  {
    var g :| g in held && g.role == h.role;
    assert g in held + [h] && h in held + [h];
  }

  lemma RoleEncodedMore(before: seq<ObjectData>, after: seq<ObjectData>, indexes: seq<nat>, held: seq<Held>, h: Held,
    role: string, at: nat)
    requires Grows(before, after) && StandFor(before, indexes, IdsOf(held, role))
    requires h.role == role ==> at < |after| && after[at].id == h.id
    ensures StandFor(after, if h.role == role then indexes + [at] else indexes, IdsOf(held + [h], role))
  {
    StandForMore(before, after, indexes, IdsOf(held, role));
    IdsOfAdded(held, h, role);
  }

  lemma RoleStillEncoded(before: map<string, seq<ObjectData>>, after: map<string, seq<ObjectData>>,
    roles: map<string, RoleData>, held: seq<Held>, h: Held, at: nat, r: string)
    requires Encodes(before, roles, held) && AllGrow(before, after)
    requires h.model in after && at < |after[h.model]| && after[h.model][at].id == h.id
    requires h.role in roles ==> roles[h.role].model == h.model
    requires r in roles || r == h.role
    ensures RoleEncoded(after, WithIndex(roles, h, at)[r], IdsOf(held + [h], r))
  {
    if r in roles {
      assert RoleEncoded(before, roles[r], IdsOf(held, r));
      RoleEncodedMore(before[roles[r].model], after[roles[r].model], roles[r].objects, held, h, r, at);
    } else {
      NobodysIds(held, r);
      RoleEncodedMore([], after[h.model], [], held, h, r, at);
    }
  }

  lemma EncodesOneMore(before: map<string, seq<ObjectData>>, after: map<string, seq<ObjectData>>,
    roles: map<string, RoleData>, held: seq<Held>, h: Held, at: nat)
    requires WellFormed(held + [h]) && Encodes(before, roles, held) && AllGrow(before, after)
    requires h.model in after && at < |after[h.model]| && after[h.model][at].id == h.id
    ensures Encodes(after, WithIndex(roles, h, at), held + [h])
  {
    RolesOfAdded(held, h);
    ModelsStayOne(roles, held, h, at);
    RolesStillEncoded(before, after, roles, held, h, at);
  }

  lemma RolesStillEncoded(before: map<string, seq<ObjectData>>, after: map<string, seq<ObjectData>>,
    roles: map<string, RoleData>, held: seq<Held>, h: Held, at: nat)
    requires WellFormed(held + [h]) && Encodes(before, roles, held) && AllGrow(before, after)
    requires h.model in after && at < |after[h.model]| && after[h.model][at].id == h.id
    ensures RolesEncoded(after, WithIndex(roles, h, at), held + [h])
  {
    if h.role in roles {
      OneModelPerRole(held, h, roles);
    }
    forall r | r in WithIndex(roles, h, at)
      ensures RoleEncoded(after, WithIndex(roles, h, at)[r], IdsOf(held + [h], r))
    {
      RoleStillEncoded(before, after, roles, held, h, at, r);
    }
  }

  lemma ModelsStayOne(roles: map<string, RoleData>, held: seq<Held>, h: Held, at: nat)
    requires roles.Keys == RolesOf(held) && ModelsFit(roles, held) && WellFormed(held + [h])
    ensures ModelsFit(WithIndex(roles, h, at), held + [h])
  {
    if h.role in roles {
      OneModelPerRole(held, h, roles);
    }
    forall g | g in held + [h]
      ensures g.role in WithIndex(roles, h, at) && WithIndex(roles, h, at)[g.role].model == g.model
    {
      if g in held {
        assert roles[g.role].model == g.model;
      }
    }
  }

  lemma RolesOfAdded(held: seq<Held>, h: Held)
    ensures RolesOf(held + [h]) == RolesOf(held) + {h.role}
  {
    assert forall g :: g in held + [h] <==> g in held || g == h;
  }

  lemma {:induction false} NobodysIds(held: seq<Held>, role: string)
    requires role !in RolesOf(held)
    ensures IdsOf(held, role) == []
  {
    if held != [] {
      assert held[|held| - 1] in held;
      assert forall h :: h in held[..|held| - 1] ==> h in held;
      NobodysIds(held[..|held| - 1], role);
    }
  }

  lemma ListsOneMore(before: map<string, seq<ObjectData>>, held: seq<Held>, h: Held)
    requires Lists(before, held) && forall g :: g in held ==> g.model in before
    ensures Lists(WithObject(before, h.model, ObjectData(h.id, "", h.name, None)), held + [h])
  {
    WithObjectGrows(before, h.model, ObjectData(h.id, "", h.name, None));
    forall m
      ensures IdsOfModel(held + [h], m) == IdsOfModel(held, m) + if m == h.model then {h.id} else {}
    {
    }
    if h.model !in before {
      assert IdsOfModel(held, h.model) == {};
    }
  }

  lemma BuiltOneMore(before: map<string, seq<ObjectData>>, roles: map<string, RoleData>, held: seq<Held>, h: Held,
    at: nat)
    requires WellFormed(held + [h]) && Encodes(before, roles, held) && Lists(before, held)
    requires var after := WithObject(before, h.model, ObjectData(h.id, "", h.name, None));
             at < |after[h.model]| && after[h.model][at].id == h.id
    ensures var after := WithObject(before, h.model, ObjectData(h.id, "", h.name, None));
            Encodes(after, WithIndex(roles, h, at), held + [h]) && Lists(after, held + [h])
  {
    WithObjectGrows(before, h.model, ObjectData(h.id, "", h.name, None));
    ModelsListed(before, roles, held);
    ListsOneMore(before, held, h);
    EncodesOneMore(before, WithObject(before, h.model, ObjectData(h.id, "", h.name, None)), roles, held, h, at);
  }

  lemma ModelsListed(before: map<string, seq<ObjectData>>, roles: map<string, RoleData>, held: seq<Held>)
    requires Encodes(before, roles, held)
    ensures forall g :: g in held ==> g.model in before
  {
    forall g | g in held
      ensures g.model in before
    {
      assert g.role in RolesOf(held);
      assert RoleEncoded(before, roles[g.role], IdsOf(held, g.role));
    }
  }

  // One assignment of the single loop: its object gets a position, its role an index.
  method AddAssignment(builder: ClaimsObjects, roles: map<string, RoleData>, ghost held: seq<Held>, h: Held)
    returns (now: map<string, RoleData>)
    requires builder.Valid() && WellFormed(held + [h])
    requires Encodes(builder.arrays, roles, held) && Lists(builder.arrays, held)
    modifies builder
    ensures builder.Valid()
    ensures Encodes(builder.arrays, now, held + [h]) && Lists(builder.arrays, held + [h])
  {
    ghost var before := builder.arrays;
    var at := builder.Position(h.model, h.id, h.name);
    BuiltOneMore(before, roles, held, h, at);
    var data := if h.role in roles then roles[h.role] else RoleData(h.model, []);
    now := roles[h.role := RoleData(data.model, data.objects + [at])];
  }

  ghost predicate NoObjectTwice(objects: map<string, seq<ObjectData>>) {
    forall m, i, j :: m in objects && 0 <= i < j < |objects[m]| ==> objects[m][i].id != objects[m][j].id
  }

  lemma IndexedOnce(objects: map<string, seq<ObjectData>>, index: map<string, map<string, nat>>)
    requires AllIndexed(objects, index)
    ensures NoObjectTwice(objects)
  {
    forall m, i, j | m in objects && 0 <= i < j < |objects[m]|
      ensures objects[m][i].id != objects[m][j].id
    {
      assert Indexed(objects[m], IndexOf(index, m));
    }
  }

  method BuildObjectsAndRoles(held: seq<Held>, teamOrg: map<string, OrgInfo>)
    returns (objects: map<string, seq<ObjectData>>, roles: map<string, RoleData>)
    requires WellFormed(held)
    ensures Encodes(objects, roles, held) && NoObjectTwice(objects)
    ensures ORGANIZATION in objects && TEAM in objects && TeamsPointAtOrgs(objects, teamOrg)
    ensures forall t :: t in objects[TEAM] ==>
      if t.id in teamOrg then
        t.org.Some? && t.org.value < |objects[ORGANIZATION]| &&
        objects[ORGANIZATION][t.org.value].id == teamOrg[t.id].id
      else t.org.None?
    ensures forall m, o :: m in objects && o in objects[m] ==>
      || (exists h :: h in held && h.model == m && h.id == o.id && h.name == o.name)
      || (m == ORGANIZATION && exists t :: t in teamOrg && teamOrg[t] == OrgInfo(o.id, o.name))
    ensures IdSet(objects[ORGANIZATION]) ==
              IdsOfModel(held, ORGANIZATION) + OrgIds(IdsOfModel(held, TEAM), teamOrg)
  {
    var builder := new ClaimsObjects();
    roles := map[];
    for n := 0 to |held|
      invariant builder.Valid()
      invariant fresh(builder)
      invariant Encodes(builder.arrays, roles, held[..n])
      invariant Lists(builder.arrays, held[..n])
    {
      assert held[..n + 1] == held[..n] + [held[n]];
      assert forall h :: h in held[..n + 1] ==> h in held;
      roles := AddAssignment(builder, roles, held[..n], held[n]);
    }
    assert held[..|held|] == held;
    ghost var before := builder.arrays;
    builder.ResolveTeamOrganizationReferences(teamOrg);
    objects := builder.arrays;
    StillEncodes(before, objects, roles, held);
    NamesFit(before, objects, held, teamOrg);
    IndexedOnce(objects, builder.index);
  }

  lemma NamesFit(before: map<string, seq<ObjectData>>, after: map<string, seq<ObjectData>>, held: seq<Held>,
    teamOrg: map<string, OrgInfo>)
    requires ORGANIZATION in before && Lists(before, held) && AllGrow(before, after) && after.Keys == before.Keys
    requires forall m :: m in before && m != ORGANIZATION ==> |after[m]| == |before[m]|
    requires OrgsFrom(after, |before[ORGANIZATION]|, teamOrg)
    ensures forall m, o :: m in after && o in after[m] ==>
      || (exists h :: h in held && h.model == m && h.id == o.id && h.name == o.name)
      || (m == ORGANIZATION && exists t :: t in teamOrg && teamOrg[t] == OrgInfo(o.id, o.name))
  {
    forall m, o | m in after && o in after[m]
      ensures
        || (exists h :: h in held && h.model == m && h.id == o.id && h.name == o.name)
        || (m == ORGANIZATION && exists t :: t in teamOrg && teamOrg[t] == OrgInfo(o.id, o.name))
    {
      var i :| 0 <= i < |after[m]| && after[m][i] == o;
      if i < |before[m]| {
        assert Grows(before[m], after[m]) && before[m][i] in before[m];
      }
    }
  }

  lemma StillEncodes(before: map<string, seq<ObjectData>>, after: map<string, seq<ObjectData>>,
    roles: map<string, RoleData>, held: seq<Held>)
    requires Encodes(before, roles, held) && AllGrow(before, after)
    ensures Encodes(after, roles, held)
  {
    forall r | r in roles
      ensures RoleEncoded(after, roles[r], IdsOf(held, r))
    {
      assert RoleEncoded(before, roles[r], IdsOf(held, r));
      StandForMore(before[roles[r].model], after[roles[r].model], roles[r].objects, IdsOf(held, r));
    }
  }

  // ---- the round trip ----

  lemma {:induction false} DecodedIds(objects: seq<ObjectData>, indexes: seq<nat>, ids: seq<string>)
    requires StandFor(objects, indexes, ids) && "" !in ids
    ensures Decoded(objects, indexes) == ids
  {
    if ids != [] {
      var n := |ids| - 1;
      DecodedIds(objects, indexes[..n], ids[..n]);
      assert ids == ids[..n] + [ids[n]];
    }
  }

  lemma {:induction false} IdsAreHeld(held: seq<Held>, role: string, id: string)
    requires id in IdsOf(held, role)
    ensures exists h :: h in held && h.role == role && h.id == id
  {
    var last := held[|held| - 1];
    if last.role == role && last.id == id {
      assert last in held;
    } else {
      IdsAreHeld(held[..|held| - 1], role, id);
    }
  }

  lemma RoleRoundTrip(held: seq<Held>, claims: Claims, role: string)
    requires WellFormed(held) && Encodes(claims.objects, claims.objectRoles, held) && role in claims.objectRoles
    ensures DecodedRole(claims, role) == IdsOf(held, role)
  {
    assert RoleEncoded(claims.objects, claims.objectRoles[role], IdsOf(held, role));
    if "" in IdsOf(held, role) {
      IdsAreHeld(held, role, "");
    }
    DecodedIds(ObjectsOf(claims, claims.objectRoles[role].model), claims.objectRoles[role].objects, IdsOf(held, role));
  }

  // Decoding what was built gives, per role, the sorted ids of the assignments.
  lemma RoundTrip(held: seq<Held>, claims: Claims)
    requires WellFormed(held) && Encodes(claims.objects, claims.objectRoles, held)
    ensures FormOfClaims(claims) == FormOf(held, claims.globalRoles)
  {
    var decoded, expected := FormOfClaims(claims).objectRoles, FormOf(held, claims.globalRoles).objectRoles;
    assert decoded.Keys == claims.objectRoles.Keys == RolesOf(held) == expected.Keys;
    forall r | r in decoded
      ensures decoded[r] == expected[r]
    {
      RoleRoundTrip(held, claims, r);
    }
  }

  lemma {:induction false} IdsOfJoined(a: seq<Held>, b: seq<Held>, role: string)
    ensures IdsOf(a + b, role) == IdsOf(a, role) + IdsOf(b, role)
  {
    if b == [] {
      assert a + b == a;
    } else {
      assert (a + b)[..|a + b| - 1] == a + b[..|b| - 1];
      IdsOfJoined(a, b[..|b| - 1], role);
    }
  }

  lemma IdsWithout(b: seq<Held>, i: nat, role: string)
    requires i < |b|
    ensures multiset(IdsOf(b, role)) == multiset(IdsOf(b[..i] + b[i + 1..], role)) + multiset(IdsOf([b[i]], role))
  {
    var h := [b[i]];
    IdsOfJoined(b[..i], b[i + 1..], role);
    assert b == b[..i] + (h + b[i + 1..]);
    IdsOfJoined(b[..i], h + b[i + 1..], role);
    IdsOfJoined(h, b[i + 1..], role);
  }

  lemma {:induction false} SameIdsInAnyOrder(a: seq<Held>, b: seq<Held>, role: string)
    requires multiset(a) == multiset(b)
    ensures multiset(IdsOf(a, role)) == multiset(IdsOf(b, role))
    decreases |a|
  {
    if a == [] {
      assert |multiset(b)| == |b|;
    } else {
      var i := FoundAt(a, b);
      SameIdsInAnyOrder(a[1..], b[..i] + b[i + 1..], role);
      IdsWithout(b, i, role);
      assert a == [a[0]] + a[1..];
      IdsOfJoined([a[0]], a[1..], role);
    }
  }

  lemma FoundAt<T>(a: seq<T>, b: seq<T>) returns (i: nat)
    requires multiset(a) == multiset(b) && a != []
    ensures i < |b| && b[i] == a[0] && multiset(a[1..]) == multiset(b[..i] + b[i + 1..])
  {
    assert a[0] in multiset(b);
    i :| i < |b| && b[i] == a[0];
    TakenOut(b, i);
    assert a == [a[0]] + a[1..];
    assert multiset(a[1..]) == multiset(a) - multiset{a[0]};
  }

  lemma TakenOut<T>(xs: seq<T>, i: nat)
    requires i < |xs|
    ensures multiset(xs[..i] + xs[i + 1..]) == multiset(xs) - multiset{xs[i]}
  {
    assert xs == xs[..i] + [xs[i]] + xs[i + 1..];
  }

  // The database may return the assignments in any order: the hashed form is the same.
  lemma OrderDoesNotMatter(a: seq<Held>, b: seq<Held>, globalsA: seq<string>, globalsB: seq<string>)
    requires multiset(a) == multiset(b) && multiset(globalsA) == multiset(globalsB)
    ensures FormOf(a, globalsA) == FormOf(b, globalsB)
  {
    SameSortedIffSameContents(globalsA, globalsB);
    forall h
      ensures h in a <==> h in b
    {
      assert h in multiset(a) <==> h in multiset(b);
    }
    assert RolesOf(a) == RolesOf(b);
    forall r
      ensures Sorted(IdsOf(a, r)) == Sorted(IdsOf(b, r))
    {
      SameIdsInAnyOrder(a, b, r);
      SameSortedIffSameContents(IdsOf(a, r), IdsOf(b, r));
    }
  }

  // And it is different as soon as the user holds something else.
  lemma SameFormSameContents(a: seq<Held>, b: seq<Held>, globalsA: seq<string>, globalsB: seq<string>)
    requires FormOf(a, globalsA) == FormOf(b, globalsB)
    ensures multiset(globalsA) == multiset(globalsB) && RolesOf(a) == RolesOf(b)
    ensures forall r :: r in RolesOf(a) ==> multiset(IdsOf(a, r)) == multiset(IdsOf(b, r))
  {
    var f, g := FormOf(a, globalsA), FormOf(b, globalsB);
    SameSortedIffSameContents(globalsA, globalsB);
    assert f.objectRoles.Keys == RolesOf(a) && g.objectRoles.Keys == RolesOf(b);
    forall r | r in RolesOf(a)
      ensures multiset(IdsOf(a, r)) == multiset(IdsOf(b, r))
    {
      assert f.objectRoles[r] == g.objectRoles[r];
      SameSortedIffSameContents(IdsOf(a, r), IdsOf(b, r));
    }
  }

  method GetUserClaims(held: seq<Held>, globalRoles: seq<string>, teamOrg: map<string, OrgInfo>)
    returns (claims: Claims)
    requires WellFormed(held)
    ensures FormOfClaims(claims) == FormOf(held, globalRoles)
    ensures Encodes(claims.objects, claims.objectRoles, held)
  {
    var objects, roles := BuildObjectsAndRoles(held, teamOrg);
    claims := Claims(objects, roles, globalRoles);
    RoundTrip(held, claims);
  }
}
