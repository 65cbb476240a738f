/**
 Planning again from what a run left: the second plan is empty, except for the passwords that
 are set on every run, for the clients the first plan could not create disabled and for what it
 could not clear.
 */
module DynsecReplan {
  import opened DynsecModel
  import opened DynsecPlan
  import opened DynsecDatabase
  import opened DynsecObjects
  import opened DynsecPhases
  import opened DynsecTheorems

  // ---------------------------------------------------------------- empty phases

  lemma {:induction false} RolePhaseEmpty(current: seq<Role>, roles: seq<Role>)
    ensures RolePhase(current, roles) == [] <==> forall r :: r in roles ==> RoleCommands(current, r) == []
  {
    hide RoleCommands;
    if roles != [] {
      var n := |roles| - 1;
      assert roles == roles[..n] + [roles[n]];
      RolePhaseEmpty(current, roles[..n]);
    }
  }

  lemma {:induction false} GroupPhaseEmpty(current: seq<Group>, groups: seq<Group>)
    ensures GroupPhase(current, groups) == [] <==> forall g :: g in groups ==> GroupCommands(current, g) == []
  {
    hide GroupCommands;
    if groups != [] {
      var n := |groups| - 1;
      assert groups == groups[..n] + [groups[n]];
      GroupPhaseEmpty(current, groups[..n]);
    }
  }

  lemma {:induction false} ClientPhaseEmpty(current: seq<Client>, clients: seq<Client>)
    ensures ClientPhase(current, clients) == [] <==> forall c :: c in clients ==> ClientCommands(current, c) == []
  {
    hide ClientCommands;
    if clients != [] {
      var n := |clients| - 1;
      assert clients == clients[..n] + [clients[n]];
      ClientPhaseEmpty(current, clients[..n]);
    }
  }

  lemma {:induction false} MemberPhaseEmpty(current: seq<Group>, groups: seq<Group>, gone: set<string>)
    requires forall g :: g in groups ==> MemberCommands(current, g, gone) == []
    ensures MemberPhase(current, groups, gone) == []
  {
    hide MemberCommands;
    if groups != [] {
      MemberPhaseEmpty(current, groups[..|groups| - 1], gone);
    }
  }

  /* References whose names all occur leave nothing to add or remove. */
  lemma NothingOutside(op: RefOp, owner: string, refs: seq<Ref>, names: set<string>)
    requires Names(refs) <= names
    ensures RefCommands(op, owner, Outside(refs, names)) == []
  {
    hide Outside;
    assert forall ref :: ref in refs ==> ref.name in Names(refs);
    NoElements(Outside(refs, names));
  }

  // ---------------------------------------------------------------- one object

  lemma RoleSettled(found: Role, role: Role)
    requires DistinctKeys(found.acls) && DistinctKeys(role.acls)
    requires PutEntries(map[], found.acls) == PutEntries(map[], role.acls)
    ensures RoleEdits(found, role) == [] <==> found.texts == role.texts
  {
    hide PutEntries, Removed, Added, DistinctKeys, Key, FindEntry;
    forall e | e in found.acls ensures FindEntry(role.acls, Key(e)).Some? {
      SameEntryIn(found.acls, role.acls, e);
    }
    NoElements(Removed(found.acls, role.acls));
    forall e | e in role.acls ensures !Differs(found.acls, e) {
      SameEntryIn(role.acls, found.acls, e);
      SameKeySameEntry(found.acls, e, FindEntry(found.acls, Key(e)).value);
    }
    NoElements(Added(found.acls, role.acls));
  }

  lemma MembersSettled(found: Group, group: Group, gone: set<string>)
    requires Names(found.clients) == Names(group.clients)
    ensures MemberEdits(found, group, gone) == []
  {
    hide RefCommands, Outside, Names;
    NothingOutside(AddGroupClient, group.name, group.clients, Names(found.clients));
    NothingOutside(RemoveGroupClient, group.name, found.clients, Names(group.clients) + gone);
  }

  lemma GroupSettled(found: Group, group: Group)
    requires Names(found.roles) == Names(group.roles) && Names(found.clients) == Names(group.clients)
    ensures GroupEdits(found, group) == [] <==> found.texts == group.texts
  {
    hide RefCommands, Outside, Names, MemberEdits;
    NothingOutside(AddGroupRole, group.name, group.roles, Names(found.roles));
    NothingOutside(RemoveGroupRole, group.name, found.roles, Names(group.roles));
    MembersSettled(found, group, {});
  }

  lemma ClientSettled(found: Client, client: Client)
    requires Names(found.roles) == Names(client.roles)
    ensures ClientEdits(found, client) == []
       <==> && client.password == "" && found.disabled == client.disabled
            && found.texts == client.texts && found.clientId == client.clientId
  {
    hide RefCommands, Outside, Names;
    NothingOutside(AddClientRole, client.name, client.roles, Names(found.roles));
    NothingOutside(RemoveClientRole, client.name, found.roles, Names(client.roles));
  }

  // ---------------------------------------------------------------- the second plan

  lemma RolesSettled(before: Database, desired: Document, after: Database, actual: Document)
    requires Reached(before, desired, after) && Represents(actual, after)
    requires forall r :: r in desired.roles ==> DistinctKeys(r.acls)
    ensures RolePhase(actual.roles, desired.roles) == []
       <==> forall r :: r in desired.roles ==> KeepsTexts(HeldByRole(before, r.name), r.texts)
  {
    hide Reached, RolePhase, RoleEdits, DistinctKeys, RoleOf, GroupsMatch, ClientsMatch, Distinct, NameSet, RoleNames,
         KeepsTexts, PutTexts, PutEntries, HeldByRole;
    ReadBack(actual, after);
    ReachedNames(before, desired, after);
    Named(desired);
    forall r | r in desired.roles
      ensures RoleCommands(actual.roles, r) == [] <==> KeepsTexts(HeldByRole(before, r.name), r.texts)
    {
      var found := FindRole(actual.roles, r.name);
      if found.None? {
        NotNamed(RoleNames(actual.roles), r.name);
        assert false;
      } else {
        RoleReadBack(before, desired, after, found.value, r);
        RoleSettled(found.value, r);
        PutExactly(HeldByRole(before, r.name), r.texts);
      }
    }
    RolePhaseEmpty(actual.roles, desired.roles);
  }

  lemma NotNamed(names: seq<string>, name: string)
    requires name !in names
    ensures name !in NameSet(names)
  {
  }

  lemma GroupsSettled(before: Database, desired: Document, after: Database, actual: Document, gone: set<string>)
    requires Reached(before, desired, after) && Represents(actual, after)
    ensures GroupPhase(actual.groups, desired.groups) == []
       <==> forall g :: g in desired.groups ==> KeepsTexts(HeldByGroup(before, g.name).texts, g.texts)
    ensures MemberPhase(actual.groups, desired.groups, gone) == []
  {
    hide Reached, GroupPhase, MemberPhase, GroupEdits, MemberEdits, GroupMatches, RolesMatch, ClientsMatch,
         Distinct, NameSet, GroupNames, MembersOf, HeldByGroup, Names, KeepsTexts, PutTexts;
    ReadBack(actual, after);
    ReachedNames(before, desired, after);
    Named(desired);
    forall g | g in desired.groups
      ensures GroupCommands(actual.groups, g) == [] <==> KeepsTexts(HeldByGroup(before, g.name).texts, g.texts)
      ensures MemberCommands(actual.groups, g, gone) == []
    {
      var found := FindGroup(actual.groups, g.name);
      if found.None? {
        NotNamed(GroupNames(actual.groups), g.name);
        assert false;
      } else {
        GroupReadBack(before, desired, after, found.value, g);
        GroupSettled(found.value, g);
        MembersSettled(found.value, g, gone);
        PutExactly(HeldByGroup(before, g.name).texts, g.texts);
      }
    }
    GroupPhaseEmpty(actual.groups, desired.groups);
    MemberPhaseEmpty(actual.groups, desired.groups, gone);
  }

  lemma GroupReadBack(before: Database, desired: Document, after: Database, found: Group, group: Group)
    requires Reached(before, desired, after) && group in desired.groups
    requires GroupMatches(found, after) && found.name == group.name
    ensures found.texts == PutTexts(HeldByGroup(before, group.name).texts, group.texts)
    ensures Names(found.roles) == Names(group.roles) && Names(found.clients) == Names(group.clients)
  {
    hide DistinctRefs, MembersOf, PlannedRole, HeldByRole, DistinctKeys, Merged, PutRefs, SettledClient, NameSet, PutTexts;
    PlannedRoles(before, group);
    assert after.groups[group.name].roles.Keys == Names(group.roles);
    assert after.groups[group.name].roles.Keys == Names(found.roles);
  }

  lemma ClientReadBack(before: Database, desired: Document, after: Database, found: Client, client: Client)
    requires Reached(before, desired, after) && client in desired.clients
    requires ClientHeld(found, after) && found.name == client.name
    ensures (found.texts == client.texts && found.clientId == client.clientId) <==> KeepsClient(before, client)
    ensures Names(found.roles) == Names(client.roles)
    ensures found.disabled == client.disabled <==> (client.disabled ==> client.name in before.clients)
  {
    hide DistinctRefs, MembersOf, PlannedRole, HeldByRole, DistinctKeys, PlannedGroup, Merged, PutRefs, NameSet, PutTexts, KeepsTexts;
    SettledRoles(before, client);
    assert after.clients[client.name].roles.Keys == Names(client.roles);
    assert after.clients[client.name].roles.Keys == Names(found.roles);
    if client.name in before.clients {
      PutExactly(before.clients[client.name].texts, client.texts);
    }
  }

  lemma ClientsSettled(before: Database, desired: Document, after: Database, actual: Document)
    requires Reached(before, desired, after) && Represents(actual, after)
    ensures ClientPhase(actual.clients, desired.clients) == []
       <==> && NoneBornDisabled(before, desired)
            && forall c :: c in desired.clients ==> c.password == "" && KeepsClient(before, c)
  {
    hide Reached, ClientPhase, ClientEdits, ClientHeld, RolesMatch, GroupsMatch, DistinctRefs, KeepsClient,
         Distinct, NameSet, ClientNames, Names, GroupsOf;
    ReadBack(actual, after);
    ReachedNames(before, desired, after);
    Named(desired);
    forall c | c in desired.clients
      ensures ClientCommands(actual.clients, c) == []
         <==> c.password == "" && (c.disabled ==> c.name in before.clients) && KeepsClient(before, c)
    {
      var found := FindClient(actual.clients, c.name);
      if found.None? {
        NotNamed(ClientNames(actual.clients), c.name);
        assert false;
      } else {
        ClientReadBack(before, desired, after, found.value, c);
        ClientSettled(found.value, c);
      }
    }
    ClientPhaseEmpty(actual.clients, desired.clients);
  }

  /* Planning again for the same document, from whatever is read back after the run, plans
     nothing exactly when no client carries a password, none was created to be disabled and
     nothing was to be cleared. */
  lemma ReplanIsEmptyExactly(before: Database, current: Document, desired: Document, actual: Document)
    requires Sound(before) && Represents(current, before)
    requires ValidDocument(desired) && forall r :: r in desired.roles ==> DistinctKeys(r.acls)
    requires Represents(actual, Run(before, PlanCommands(current, desired)))
    ensures PlanCommands(actual, desired) == []
       <==> && NoneBornDisabled(before, desired) && NothingCleared(before, desired)
            && forall c :: c in desired.clients ==> c.password == ""
  {
    hide Run, Sound, ValidDocument, Reached, DistinctKeys, NoneBornDisabled, RolesMatch, GroupsMatch, ClientsMatch,
         RolePhase, GroupPhase, ClientPhase, MemberPhase, Gone, ClientNames, GroupNames, RoleNames, Distinct,
         KeepsTexts, KeepsClient, KeepsAnonymous, HeldByGroup, HeldByRole;
    var after := Run(before, PlanCommands(current, desired));
    PlanReaches(before, current, desired);
    RolesSettled(before, desired, after, actual);
    GroupsSettled(before, desired, after, actual, NameSet(GoneClients(actual, desired)));
    ClientsSettled(before, desired, after, actual);
    ReadBack(actual, after);
    ReachedNames(before, desired, after);
    ReachedSettings(before, desired, after);
    NothingGone(ClientNames(actual.clients), ClientNames(desired.clients));
    NothingGone(GroupNames(actual.groups), GroupNames(desired.groups));
    NothingGone(RoleNames(actual.roles), RoleNames(desired.roles));
    assert CleanUp(actual, desired) == [];
    assert Settings(actual, desired) == [] <==> KeepsAnonymous(before, desired);
    BuildUpParts(actual, desired);
  }

  // ---------------------------------------------------------------- a priority that is not sent

  /* A group that holds role `r` with a priority. */
  function Holding(priority: int): Group {
    Group("g", Texts("", ""), [Ref("r", priority)], [])
  }

  function HoldingDocument(priority: int, defaults: DefaultAccess): Document {
    Document([], [Holding(priority)], [Role("r", Texts("", ""), [])], defaults, "")
  }

  lemma HoldingNames(priority: int)
    ensures Names(Holding(priority).roles) == {"r"} && PutRefs(map[], Holding(priority).roles) == map["r" := priority]
  {
    var refs := Holding(priority).roles;
    assert refs[0] in refs && refs[..0] == [];
  }

  /* The group holds the role at priority 0 and is to hold it at 5: nothing is sent. */
  lemma UnsentPriority(defaults: DefaultAccess)
    ensures PlanCommands(HoldingDocument(0, defaults), HoldingDocument(5, defaults)) == []
    ensures !KeepsPriorities(PutRefs(map[], Holding(0).roles), Holding(5).roles)
  {
    hide RoleEdits, GroupEdits, MemberEdits, RolePhase, GroupPhase, ClientPhase, MemberPhase, Gone, Names, PutRefs, RoleOf, DistinctKeys;
    var current, desired := HoldingDocument(0, defaults), HoldingDocument(5, defaults);
    var role := Role("r", Texts("", ""), []);
    HoldingNames(0);
    HoldingNames(5);
    NoEntriesTwice(role);
    RoleSettled(role, role);
    GroupSettled(Holding(0), Holding(5));
    var gone := NameSet(GoneClients(current, desired));
    MembersSettled(Holding(0), Holding(5), gone);
    RolePhaseEmpty(current.roles, desired.roles);
    GroupPhaseEmpty(current.groups, desired.groups);
    ClientPhaseEmpty(current.clients, desired.clients);
    MemberPhaseEmpty(current.groups, desired.groups, gone);
    assert GroupNames(current.groups) == GroupNames(desired.groups);
    NothingGone(ClientNames(current.clients), ClientNames(desired.clients));
    NothingGone(GroupNames(current.groups), GroupNames(desired.groups));
    NothingGone(RoleNames(current.roles), RoleNames(desired.roles));
    assert CleanUp(current, desired) == [] && Settings(current, desired) == [];
    BuildUpParts(current, desired);
  }

  lemma NoEntriesTwice(role: Role)
    requires role.acls == []
    ensures DistinctKeys(role.acls)
  {
  }

  // ---------------------------------------------------------------- a text that is not cleared

  /* A document of one role with a description. */
  function Described(description: string, defaults: DefaultAccess): Document {
    Document([], [], [Role("r", Texts("", description), [])], defaults, "")
  }

  /* The role is described as "x" and is to have no description: the command carries the name of the
     role only, the database stays as it was, and every plan is the same again. */
  lemma UnclearedText(db: Database, defaults: DefaultAccess)
    requires Represents(Described("x", defaults), db)
    ensures PlanCommands(Described("x", defaults), Described("", defaults)) == [ModifyRole("r", Texts("", ""))]
    ensures Run(db, PlanCommands(Described("x", defaults), Described("", defaults))) == db
    ensures !NothingCleared(db, Described("", defaults))
  {
    hide GroupPhase, ClientPhase, MemberPhase, Gone, Run, PutEntries;
    var current, desired := Described("x", defaults), Described("", defaults);
    var held, wanted := current.roles[0], desired.roles[0];
    var command := ModifyRole("r", Texts("", ""));
    assert RoleEdits(held, wanted) == [command];
    assert current.roles[..0] == [] && desired.roles[..0] == [];
    assert RolePhase(current.roles, desired.roles) == [command];
    var gone := NameSet(GoneClients(current, desired));
    GroupPhaseEmpty(current.groups, desired.groups);
    ClientPhaseEmpty(current.clients, desired.clients);
    MemberPhaseEmpty(current.groups, desired.groups, gone);
    assert RoleNames(current.roles) == RoleNames(desired.roles);
    NothingGone(ClientNames(current.clients), ClientNames(desired.clients));
    NothingGone(GroupNames(current.groups), GroupNames(desired.groups));
    NothingGone(RoleNames(current.roles), RoleNames(desired.roles));
    assert CleanUp(current, desired) == [] && Settings(current, desired) == [];
    BuildUpParts(current, desired);
    assert held in current.roles && wanted in desired.roles;
    assert db.roles["r"] == RoleOf(held);
    RunOne(db, command);
    assert db.roles["r" := db.roles["r"]] == db.roles;
  }
}
