/**
 What each phase of a plan does to the database of the plugin. Every lemma says that the
 commands of the phase are safe where they are reached, and describes the state they leave.
 */
module DynsecPhases {
  import opened DynsecModel
  import opened DynsecPlan
  import opened DynsecDatabase
  import opened DynsecObjects

  function NameSet(names: seq<string>): set<string> {
    set name | name in names
  }

  lemma NameSetSnoc(names: seq<string>, n: nat)
    requires |names| == n + 1
    ensures NameSet(names) == NameSet(names[..n]) + {names[n]}
    ensures Distinct(names) ==> Distinct(names[..n]) && names[n] !in names[..n]
  {
    assert names == names[..n] + [names[n]];
  }

  // ---------------------------------------------------------------- roles

  /* The texts a role starts from. */
  function HeldByRole(db: Database, role: string): Texts {
    if role in db.roles then db.roles[role].texts else Texts("", "")
  }

  ghost predicate RolesReached(before: Database, roles: seq<Role>, after: Database) {
    && after == before.(roles := after.roles)
    && after.roles.Keys == before.roles.Keys + NameSet(RoleNames(roles))
    && (forall name :: name in before.roles && name !in NameSet(RoleNames(roles)) ==> after.roles[name] == before.roles[name])
    && (forall r :: r in roles ==> r.name in after.roles && (DistinctKeys(r.acls) ==> after.roles[r.name] == PlannedRole(HeldByRole(before, r.name), r)))
  }

  lemma RoleRun(before: Database, db: Database, current: seq<Role>, role: Role)
    requires RolesMatch(current, before)
    requires role.name in db.roles <==> role.name in before.roles
    requires role.name in db.roles ==> db.roles[role.name] == before.roles[role.name]
    ensures AllSafe(db, RoleCommands(current, role))
    ensures var after := Run(db, RoleCommands(current, role));
            && role.name in after.roles
            && after == WithRole(db, role.name, after.roles[role.name])
            && (DistinctKeys(role.acls) ==> after.roles[role.name] == PlannedRole(HeldByRole(before, role.name), role))
  {
    hide Run, AllSafe, RoleEdits;
    var existing := FindRole(current, role.name);
    if existing.None? {
      assert role.name !in before.roles;
      RunOne(db, CreateRole(role.name, role.texts, role.acls));
    } else {
      RoleEditsRun(db, existing.value, role);
    }
  }

  lemma RoleNamesSnoc(roles: seq<Role>, role: Role)
    ensures NameSet(RoleNames(roles + [role])) == NameSet(RoleNames(roles)) + {role.name}
    ensures forall r :: r in roles ==> r.name in NameSet(RoleNames(roles))
  {
    assert RoleNames(roles + [role]) == RoleNames(roles) + [role.name];
    forall r | r in roles ensures r.name in NameSet(RoleNames(roles)) {
      var i :| 0 <= i < |roles| && roles[i] == r;
      assert RoleNames(roles)[i] == r.name;
    }
  }

  lemma RolesReachedSnoc(before: Database, roles: seq<Role>, middle: Database, role: Role, state: RoleState)
    requires RolesReached(before, roles, middle) && role.name !in NameSet(RoleNames(roles))
    requires DistinctKeys(role.acls) ==> state == PlannedRole(HeldByRole(before, role.name), role)
    ensures RolesReached(before, roles + [role], WithRole(middle, role.name, state))
  {
    hide PlannedRole, HeldByRole, DistinctKeys, NameSet, RoleNames;
    RoleNamesSnoc(roles, role);
  }

  /* What the roles handled so far leave of the next one. */
  lemma RolesReachedNext(before: Database, roles: seq<Role>, after: Database, name: string)
    requires RolesReached(before, roles, after) && name !in NameSet(RoleNames(roles))
    ensures name in after.roles <==> name in before.roles
    ensures name in after.roles ==> after.roles[name] == before.roles[name]
  {
    hide PlannedRole, HeldByRole, DistinctKeys, NameSet, RoleNames;
  }

  lemma NoRolesReached(db: Database)
    ensures RolesReached(db, [], db)
  {
  }

  lemma {:induction false} RolesRun(db: Database, current: seq<Role>, roles: seq<Role>)
    requires RolesMatch(current, db) && Distinct(RoleNames(roles))
    ensures AllSafe(db, RolePhase(current, roles))
    ensures RolesReached(db, roles, Run(db, RolePhase(current, roles)))
  {
    hide Run, AllSafe, RoleCommands, RolesMatch, PlannedRole, HeldByRole, DistinctKeys, RolesReached, WithRole;
    if roles == [] {
      RunNothing(db);
      NoRolesReached(db);
    } else {
      var n := |roles| - 1;
      var role := roles[n];
      assert RoleNames(roles)[..n] == RoleNames(roles[..n]);
      NameSetSnoc(RoleNames(roles), n);
      RolesRun(db, current, roles[..n]);
      var middle := Run(db, RolePhase(current, roles[..n]));
      RunConcat(db, RolePhase(current, roles[..n]), RoleCommands(current, role));
      assert role.name !in NameSet(RoleNames(roles[..n]));
      RolesReachedNext(db, roles[..n], middle, role.name);
      RoleRun(db, middle, current, role);
      RolesReachedSnoc(db, roles[..n], middle, role, Run(middle, RoleCommands(current, role)).roles[role.name]);
      assert roles == roles[..n] + [role];
    }
  }

  lemma RunNothing(db: Database)
    ensures Run(db, []) == db && AllSafe(db, [])
  {
  }

  // ---------------------------------------------------------------- groups

  /* The group an update starts from. */
  function HeldByGroup(db: Database, group: string): GroupState {
    if group in db.groups then db.groups[group] else GroupState(Texts("", ""), map[])
  }

  lemma MergedFresh(refs: seq<Ref>)
    ensures Merged(map[], refs) == PutRefs(map[], refs)
  {
  }

  ghost predicate GroupsReached(before: Database, groups: seq<Group>, after: Database) {
    && after == before.(groups := after.groups, members := after.members)
    && after.groups.Keys == before.groups.Keys + NameSet(GroupNames(groups))
    && (forall name :: name !in NameSet(GroupNames(groups)) ==> MembersOf(after, name) == MembersOf(before, name))
    && (forall name :: name in before.groups && name !in NameSet(GroupNames(groups)) ==> after.groups[name] == before.groups[name])
    && (forall g :: g in groups ==>
          && g.name in after.groups
          && after.groups[g.name] == PlannedGroup(HeldByGroup(before, g.name), g)
          && MembersOf(after, g.name) == if g.name in before.groups then Names(g.clients) else {})
  }

  /* Rejoining replaces the clients of one group by the wanted ones. */
  lemma RejoinedMembers(db: Database, current: Group, desired: Group, name: string)
    requires MembersOf(db, desired.name) == Names(current.clients)
    ensures MembersOf(Rejoined(db, current, desired, {}), name)
         == if name == desired.name then Names(desired.clients) else MembersOf(db, name)
  {
    var after := Rejoined(db, current, desired, {});
    forall user
      ensures user in MembersOf(after, name)
         <==> user in (if name == desired.name then Names(desired.clients) else MembersOf(db, name))
    {
      MemberIff(after, name, user);
      MemberIff(db, name, user);
      MemberIff(db, desired.name, user);
    }
  }

  lemma MemberIff(db: Database, group: string, user: string)
    ensures user in MembersOf(db, group) <==> (group, user) in db.members
  {
    if (group, user) in db.members {
      var pair := (group, user);
      assert pair.0 == group && pair.1 == user;
    }
  }

  /* The group phase adds no client to a group it creates. */
  lemma GroupRun(before: Database, db: Database, current: seq<Group>, group: Group)
    requires GroupsMatch(current, before)
    requires forall g :: g in current ==> Names(g.roles) <= db.roles.Keys
    requires Names(group.roles) <= db.roles.Keys
    requires group.name in db.groups <==> group.name in before.groups
    requires group.name in db.groups ==> db.groups[group.name] == before.groups[group.name]
    requires MembersOf(db, group.name) == MembersOf(before, group.name)
    requires group.name !in before.groups ==> MembersOf(before, group.name) == {}
    ensures AllSafe(db, GroupCommands(current, group))
    ensures var after := Run(db, GroupCommands(current, group));
            && after == WithGroup(db, group.name, PlannedGroup(HeldByGroup(before, group.name), group)).(members := after.members)
            && (forall name :: name != group.name ==> MembersOf(after, name) == MembersOf(db, name))
            && MembersOf(after, group.name) == if group.name in before.groups then Names(group.clients) else {}
  {
    hide Run, AllSafe, GroupEdits, PutRefs, Merged, MembersOf, Rejoined;
    var existing := FindGroup(current, group.name);
    if existing.None? {
      assert group.name !in before.groups;
      MergedFresh(group.roles);
      RunOne(db, CreateGroup(group.name, group.texts, group.roles));
      var after := Run(db, GroupCommands(current, group));
      forall name ensures MembersOf(after, name) == MembersOf(db, name) {
        SameMembers(db, after, name);
      }
    } else {
      assert GroupMatches(existing.value, before);
      GroupEditsRun(db, existing.value, group);
      var planned := WithGroup(db, group.name, PlannedGroup(db.groups[group.name], group));
      SameMembers(db, planned, group.name);
      forall name
        ensures MembersOf(Rejoined(planned, existing.value, group, {}), name)
             == if name == group.name then Names(group.clients) else MembersOf(db, name)
      {
        SameMembers(db, planned, name);
        RejoinedMembers(planned, existing.value, group, name);
      }
      RejoinedOnlyMembers(planned, existing.value, group);
    }
  }

  lemma RejoinedOnlyMembers(db: Database, current: Group, desired: Group)
    ensures var after := Rejoined(db, current, desired, {}); after == db.(members := after.members)
  {
  }

  lemma SameMembers(a: Database, b: Database, group: string)
    requires a.members == b.members
    ensures MembersOf(a, group) == MembersOf(b, group)
  {
  }

  lemma GroupNamesSnoc(groups: seq<Group>, group: Group)
    ensures NameSet(GroupNames(groups + [group])) == NameSet(GroupNames(groups)) + {group.name}
    ensures forall g :: g in groups ==> g.name in NameSet(GroupNames(groups))
  {
    assert GroupNames(groups + [group]) == GroupNames(groups) + [group.name];
    forall g | g in groups ensures g.name in NameSet(GroupNames(groups)) {
      var i :| 0 <= i < |groups| && groups[i] == g;
      assert GroupNames(groups)[i] == g.name;
    }
  }

  lemma GroupsReachedSnoc(before: Database, groups: seq<Group>, middle: Database, group: Group, after: Database)
    requires GroupsReached(before, groups, middle) && group.name !in NameSet(GroupNames(groups))
    requires after == WithGroup(middle, group.name, PlannedGroup(HeldByGroup(before, group.name), group)).(members := after.members)
    requires forall name :: name != group.name ==> MembersOf(after, name) == MembersOf(middle, name)
    requires MembersOf(after, group.name) == if group.name in before.groups then Names(group.clients) else {}
    ensures GroupsReached(before, groups + [group], after)
  {
    hide Names, MembersOf, PlannedGroup, HeldByGroup, NameSet, GroupNames;
    GroupNamesSnoc(groups, group);
  }

  /* What the groups handled so far leave of the next one. */
  lemma GroupsReachedNext(before: Database, groups: seq<Group>, after: Database, name: string)
    requires GroupsReached(before, groups, after) && name !in NameSet(GroupNames(groups))
    ensures name in after.groups <==> name in before.groups
    ensures name in after.groups ==> after.groups[name] == before.groups[name]
    ensures MembersOf(after, name) == MembersOf(before, name)
    ensures after.roles == before.roles
  {
    hide MembersOf, PlannedGroup, HeldByGroup, Names;
    assert name !in NameSet(GroupNames(groups));
  }

  lemma {:induction false} GroupsRun(db: Database, current: seq<Group>, groups: seq<Group>)
    requires GroupsMatch(current, db) && Distinct(GroupNames(groups))
    requires forall g :: g in current || g in groups ==> Names(g.roles) <= db.roles.Keys
    requires forall g :: g in groups && g.name !in db.groups ==> MembersOf(db, g.name) == {}
    ensures AllSafe(db, GroupPhase(current, groups))
    ensures GroupsReached(db, groups, Run(db, GroupPhase(current, groups)))
  {
    hide Run, AllSafe, GroupCommands, GroupsMatch, GroupsReached, Names, MembersOf, Merged, PlannedGroup, HeldByGroup;
    if groups == [] {
      RunNothing(db);
      NoGroupsReached(db);
    } else {
      var n := |groups| - 1;
      var group := groups[n];
      assert GroupNames(groups)[..n] == GroupNames(groups[..n]);
      NameSetSnoc(GroupNames(groups), n);
      GroupsRun(db, current, groups[..n]);
      var middle := Run(db, GroupPhase(current, groups[..n]));
      RunConcat(db, GroupPhase(current, groups[..n]), GroupCommands(current, group));
      assert group in groups;
      GroupsReachedNext(db, groups[..n], middle, group.name);
      GroupRun(db, middle, current, group);
      GroupsReachedSnoc(db, groups[..n], middle, group, Run(middle, GroupCommands(current, group)));
      assert groups == groups[..n] + [group];
    }
  }

  lemma NoGroupsReached(db: Database)
    ensures GroupsReached(db, [], db)
  {
  }

  // ---------------------------------------------------------------- clients

  /* A client once the plan is through. The command that creates a client cannot disable it. */
  function SettledClient(before: Database, client: Client): ClientState {
    if client.name in before.clients then PlannedClient(before.clients[client.name], client)
    else ClientState(client.texts, client.clientId, client.password, PutRefs(map[], client.roles), false)
  }

  ghost predicate ClientsReached(before: Database, clients: seq<Client>, after: Database) {
    && after == before.(clients := after.clients)
    && after.clients.Keys == before.clients.Keys + NameSet(ClientNames(clients))
    && (forall name :: name in before.clients && name !in NameSet(ClientNames(clients)) ==> after.clients[name] == before.clients[name])
    && (forall c :: c in clients ==> c.name in after.clients && after.clients[c.name] == SettledClient(before, c))
  }

  lemma ClientRun(before: Database, db: Database, current: seq<Client>, client: Client)
    requires ClientsHeld(current, before)
    requires db == before.(clients := db.clients)
    requires forall c :: c in current ==> Names(c.roles) <= db.roles.Keys
    requires Names(client.roles) <= db.roles.Keys
    requires client.name in db.clients <==> client.name in before.clients
    requires client.name in db.clients ==> db.clients[client.name] == before.clients[client.name]
    ensures AllSafe(db, ClientCommands(current, client))
    ensures Run(db, ClientCommands(current, client)) == WithClient(db, client.name, SettledClient(before, client))
  {
    hide Run, AllSafe, ClientEdits, PutRefs, Merged, PlannedClient;
    var existing := FindClient(current, client.name);
    if existing.None? {
      assert client.name !in before.clients;
      RunOne(db, CreateClient(client.name, client.texts, client.clientId, client.password, client.roles));
    } else {
      assert ClientHeld(existing.value, before);
      ClientEditsRun(db, existing.value, client);
    }
  }

  lemma ClientNamesSnoc(clients: seq<Client>, client: Client)
    ensures NameSet(ClientNames(clients + [client])) == NameSet(ClientNames(clients)) + {client.name}
    ensures forall c :: c in clients ==> c.name in NameSet(ClientNames(clients))
  {
    assert ClientNames(clients + [client]) == ClientNames(clients) + [client.name];
    forall c | c in clients ensures c.name in NameSet(ClientNames(clients)) {
      var i :| 0 <= i < |clients| && clients[i] == c;
      assert ClientNames(clients)[i] == c.name;
    }
  }

  lemma ClientsReachedSnoc(before: Database, clients: seq<Client>, middle: Database, client: Client)
    requires ClientsReached(before, clients, middle) && client.name !in NameSet(ClientNames(clients))
    ensures client.name in middle.clients <==> client.name in before.clients
    ensures client.name in middle.clients ==> middle.clients[client.name] == before.clients[client.name]
    ensures middle == before.(clients := middle.clients)
    ensures ClientsReached(before, clients + [client], WithClient(middle, client.name, SettledClient(before, client)))
  {
    hide SettledClient, NameSet, ClientNames;
    ClientNamesSnoc(clients, client);
  }

  lemma NoClientsReached(db: Database)
    ensures ClientsReached(db, [], db)
  {
  }

  lemma {:induction false} ClientsRun(db: Database, current: seq<Client>, clients: seq<Client>)
    requires ClientsHeld(current, db) && Distinct(ClientNames(clients))
    requires forall c :: c in current || c in clients ==> Names(c.roles) <= db.roles.Keys
    ensures AllSafe(db, ClientPhase(current, clients))
    ensures ClientsReached(db, clients, Run(db, ClientPhase(current, clients)))
  {
    hide Run, AllSafe, ClientCommands, ClientsHeld, Names, SettledClient, WithClient, ClientsReached;
    if clients == [] {
      RunNothing(db);
      NoClientsReached(db);
    } else {
      var n := |clients| - 1;
      var client := clients[n];
      assert ClientNames(clients)[..n] == ClientNames(clients[..n]);
      NameSetSnoc(ClientNames(clients), n);
      ClientsRun(db, current, clients[..n]);
      var middle := Run(db, ClientPhase(current, clients[..n]));
      RunConcat(db, ClientPhase(current, clients[..n]), ClientCommands(current, client));
      assert client in clients;
      ClientsReachedSnoc(db, clients[..n], middle, client);
      ClientRun(db, middle, current, client);
      assert clients == clients[..n] + [client];
    }
  }

  // ---------------------------------------------------------------- memberships

  ghost predicate MembersReached(before: Database, groups: seq<Group>, after: Database) {
    && after == before.(members := after.members)
    && (forall name :: name !in NameSet(GroupNames(groups)) ==> MembersOf(after, name) == MembersOf(before, name))
    && (forall g :: g in groups ==> MembersOf(after, g.name) == Names(g.clients))
  }

  /* The group phase has already given the groups that existed their clients, so the second
     round of additions and removals changes nothing for them. */
  lemma MemberRun(db: Database, current: seq<Group>, group: Group, gone: set<string>, name: string)
    requires group.name in db.groups
    requires MembersOf(db, group.name) == if FindGroup(current, group.name).Some? then Names(group.clients) else {}
    ensures AllSafe(db, MemberCommands(current, group, gone))
    ensures var after := Run(db, MemberCommands(current, group, gone));
            && after == db.(members := after.members)
            && MembersOf(after, name) == if name == group.name then Names(group.clients) else MembersOf(db, name)
  {
    hide Run, AllSafe, RefCommands, Outside, MemberEdits;
    var existing := FindGroup(current, group.name);
    var after := Run(db, MemberCommands(current, group, gone));
    if existing.None? {
      OutsideNames(group.clients, {});
      RefsRun(db, AddGroupClient, group.name, Outside(group.clients, {}));
    } else {
      MemberEditsRun(db, existing.value, group, gone);
    }
    forall user
      ensures user in MembersOf(after, name)
         <==> user in (if name == group.name then Names(group.clients) else MembersOf(db, name))
    {
      MemberIff(after, name, user);
      MemberIff(db, name, user);
      MemberIff(db, group.name, user);
    }
  }

  lemma MembersReachedSnoc(before: Database, groups: seq<Group>, middle: Database, group: Group, after: Database)
    requires MembersReached(before, groups, middle) && group.name !in NameSet(GroupNames(groups))
    requires after == middle.(members := after.members)
    requires forall name ::
               MembersOf(after, name) == if name == group.name then Names(group.clients) else MembersOf(middle, name)
    ensures MembersReached(before, groups + [group], after)
  {
    hide Names, MembersOf, NameSet, GroupNames;
    GroupNamesSnoc(groups, group);
  }

  lemma MembersReachedNext(before: Database, groups: seq<Group>, after: Database, name: string)
    requires MembersReached(before, groups, after) && name !in NameSet(GroupNames(groups))
    ensures after.groups == before.groups && MembersOf(after, name) == MembersOf(before, name)
  {
    hide MembersOf, Names, NameSet, GroupNames;
  }

  lemma NoMembersReached(db: Database)
    ensures MembersReached(db, [], db)
  {
  }

  lemma {:induction false} MembersRun(db: Database, current: seq<Group>, groups: seq<Group>, gone: set<string>)
    requires Distinct(GroupNames(groups))
    requires forall g :: g in groups ==> g.name in db.groups
    requires forall g :: g in groups ==>
               MembersOf(db, g.name) == if FindGroup(current, g.name).Some? then Names(g.clients) else {}
    ensures AllSafe(db, MemberPhase(current, groups, gone))
    ensures MembersReached(db, groups, Run(db, MemberPhase(current, groups, gone)))
  {
    hide Run, AllSafe, MemberCommands, Names, MembersOf, FindGroup, MembersReached;
    if groups == [] {
      RunNothing(db);
      NoMembersReached(db);
    } else {
      var n := |groups| - 1;
      var group := groups[n];
      assert GroupNames(groups)[..n] == GroupNames(groups[..n]);
      NameSetSnoc(GroupNames(groups), n);
      MembersRun(db, current, groups[..n], gone);
      var middle := Run(db, MemberPhase(current, groups[..n], gone));
      RunConcat(db, MemberPhase(current, groups[..n], gone), MemberCommands(current, group, gone));
      assert group in groups;
      MembersReachedNext(db, groups[..n], middle, group.name);
      var after := Run(middle, MemberCommands(current, group, gone));
      MemberRun(middle, current, group, gone, group.name);
      forall name
        ensures MembersOf(after, name) == if name == group.name then Names(group.clients) else MembersOf(middle, name)
      {
        MemberRun(middle, current, group, gone, name);
      }
      MembersReachedSnoc(db, groups[..n], middle, group, after);
      assert groups == groups[..n] + [group];
    }
  }

  // ---------------------------------------------------------------- deletions

  lemma {:induction false} GoneDistinct(current: seq<string>, desired: seq<string>)
    requires Distinct(current)
    ensures Distinct(Gone(current, desired))
  {
    if current != [] {
      var n := |current| - 1;
      assert current == current[..n] + [current[n]];
      DistinctSnoc(current[..n], current[n]);
      GoneDistinct(current[..n], desired);
      DistinctSnoc(Gone(current[..n], desired), current[n]);
    }
  }

  lemma NoElements<T>(s: seq<T>)
    ensures s != [] ==> exists x :: x in s
  {
    if s != [] {
      assert s[0] in s;
    }
  }

  lemma NothingGone(current: seq<string>, desired: seq<string>)
    requires NameSet(current) == NameSet(desired)
    ensures Gone(current, desired) == []
  {
    hide Gone;
    forall name | name in current ensures name in desired {
      assert name in NameSet(current);
    }
    NoElements(Gone(current, desired));
  }

  function WithoutClients(db: Database, names: set<string>): Database {
    db.(clients := db.clients - names, members := (set pair | pair in db.members && pair.1 !in names))
  }

  lemma {:induction false} DeleteClientsRun(db: Database, names: seq<string>)
    requires Distinct(names) && NameSet(names) <= db.clients.Keys
    ensures AllSafe(db, Deletions(ClientObject, names))
    ensures Run(db, Deletions(ClientObject, names)) == WithoutClients(db, NameSet(names))
  {
    hide Run, AllSafe;
    if names == [] {
      RunNothing(db);
      assert db.clients - NameSet([]) == db.clients;
    } else {
      var n := |names| - 1;
      NameSetSnoc(names, n);
      DeleteClientsRun(db, names[..n]);
      var middle := WithoutClients(db, NameSet(names[..n]));
      RunConcat(db, Deletions(ClientObject, names[..n]), [DeleteClient(names[n])]);
      assert names[n] in NameSet(names);
      assert names[n] !in NameSet(names[..n]);
      RunOne(middle, DeleteClient(names[n]));
      assert db.clients - NameSet(names[..n]) - {names[n]} == db.clients - NameSet(names);
    }
  }

  function WithoutGroups(db: Database, names: set<string>): Database {
    db.(groups := db.groups - names,
        members := (set pair | pair in db.members && pair.0 !in names),
        anonymous := if db.anonymous in names then "" else db.anonymous)
  }

  lemma {:induction false} DeleteGroupsRun(db: Database, names: seq<string>)
    requires Distinct(names) && NameSet(names) <= db.groups.Keys
    ensures AllSafe(db, Deletions(GroupObject, names))
    ensures Run(db, Deletions(GroupObject, names)) == WithoutGroups(db, NameSet(names))
  {
    hide Run, AllSafe;
    if names == [] {
      RunNothing(db);
      assert db.groups - NameSet([]) == db.groups;
    } else {
      var n := |names| - 1;
      NameSetSnoc(names, n);
      DeleteGroupsRun(db, names[..n]);
      var middle := WithoutGroups(db, NameSet(names[..n]));
      RunConcat(db, Deletions(GroupObject, names[..n]), [DeleteGroup(names[n])]);
      assert names[n] in NameSet(names);
      assert names[n] !in NameSet(names[..n]);
      RunOne(middle, DeleteGroup(names[n]));
      assert db.groups - NameSet(names[..n]) - {names[n]} == db.groups - NameSet(names);
    }
  }

  /* Deleting a role nothing refers to changes nothing but the roles. */
  lemma DeleteUnreferenced(db: Database, role: string)
    requires role in db.roles && Unreferenced(db, role)
    ensures Safe(db, DeleteRole(role))
    ensures Step(db, DeleteRole(role)) == db.(roles := db.roles - {role})
  {
    forall g | g in db.groups ensures db.groups[g].(roles := db.groups[g].roles - {role}) == db.groups[g] {
      assert db.groups[g].roles - {role} == db.groups[g].roles;
    }
    forall c | c in db.clients ensures db.clients[c].(roles := db.clients[c].roles - {role}) == db.clients[c] {
      assert db.clients[c].roles - {role} == db.clients[c].roles;
    }
    assert (map g | g in db.groups :: db.groups[g].(roles := db.groups[g].roles - {role})) == db.groups;
    assert (map c | c in db.clients :: db.clients[c].(roles := db.clients[c].roles - {role})) == db.clients;
  }

  lemma {:induction false} DeleteRolesRun(db: Database, names: seq<string>)
    requires Distinct(names) && NameSet(names) <= db.roles.Keys
    requires forall name :: name in names ==> Unreferenced(db, name)
    ensures AllSafe(db, Deletions(RoleObject, names))
    ensures Run(db, Deletions(RoleObject, names)) == db.(roles := db.roles - NameSet(names))
  {
    hide Run, AllSafe, Step, Safe;
    if names == [] {
      RunNothing(db);
      assert db.roles - NameSet([]) == db.roles;
    } else {
      var n := |names| - 1;
      NameSetSnoc(names, n);
      DeleteRolesRun(db, names[..n]);
      var middle := db.(roles := db.roles - NameSet(names[..n]));
      RunConcat(db, Deletions(RoleObject, names[..n]), [DeleteRole(names[n])]);
      assert names[n] in NameSet(names);
      assert names[n] !in NameSet(names[..n]);
      RunOne(middle, DeleteRole(names[n]));
      assert Unreferenced(db, names[n]);
      DeleteUnreferenced(middle, names[n]);
      assert db.roles - NameSet(names[..n]) - {names[n]} == db.roles - NameSet(names);
    }
  }
}
