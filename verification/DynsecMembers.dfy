/**
 When a plan adds a client to a group before the client exists. The updates of a group that
 exists already come before the creation of clients, and they add members too.
 */
module DynsecMembers {
  import opened Options
  import opened DynsecModel
  import opened DynsecPlan
  import opened DynsecDatabase
  import opened DynsecPhases
  import opened DynsecTheorems

  predicate AddsMember(command: Command) {
    command.Refer? && command.op.AddGroupClient?
  }

  /* The client a command adds to a group exists. */
  predicate Known(db: Database, command: Command) {
    AddsMember(command) ==> command.name in db.clients
  }

  /* Every client added to a group exists where the command is reached. */
  predicate AllKnown(db: Database, commands: seq<Command>) {
    commands == [] ||
    var n := |commands| - 1;
    AllKnown(db, commands[..n]) && Known(Run(db, commands[..n]), commands[n])
  }

  /* The members a sequence of commands adds all have names in a set. */
  predicate AddsWithin(commands: seq<Command>, names: set<string>) {
    forall c :: c in commands && AddsMember(c) ==> c.name in names
  }

  predicate KeepsClients(commands: seq<Command>) {
    forall c :: c in commands ==> !c.CreateClient? && !c.DeleteClient?
  }

  lemma {:induction false} AllKnownConcat(db: Database, a: seq<Command>, b: seq<Command>)
    ensures AllKnown(db, a + b) == (AllKnown(db, a) && AllKnown(Run(db, a), b))
  {
    hide Step, Known;
    if b == [] {
      assert a + b == a;
    } else {
      var n := |b| - 1;
      AllKnownConcat(db, a, b[..n]);
      RunConcat(db, a, b[..n]);
      assert (a + b)[..|a + b| - 1] == a + b[..n];
    }
  }

  lemma StepKeepsClients(db: Database, command: Command)
    requires !command.CreateClient? && !command.DeleteClient?
    ensures Step(db, command).clients.Keys == db.clients.Keys
  {
    hide PutRefs, PutEntries;
  }

  /* As long as no client comes or goes, only the names matter. */
  lemma {:induction false} KnownExactly(db: Database, commands: seq<Command>)
    requires KeepsClients(commands)
    ensures AllKnown(db, commands) <==> AddsWithin(commands, db.clients.Keys)
    ensures Run(db, commands).clients.Keys == db.clients.Keys
  {
    hide Step, AddsMember;
    if commands != [] {
      var n := |commands| - 1;
      assert commands == commands[..n] + [commands[n]];
      KnownExactly(db, commands[..n]);
      StepKeepsClients(Run(db, commands[..n]), commands[n]);
    }
  }

  lemma {:induction false} NothingAdded(db: Database, commands: seq<Command>)
    requires forall c :: c in commands ==> !AddsMember(c)
    ensures AllKnown(db, commands)
  {
    hide Step, AddsMember;
    if commands != [] {
      NothingAdded(db, commands[..|commands| - 1]);
    }
  }

  // ---------------------------------------------------------------- which members a phase adds

  lemma {:induction false} RefCommandsAdd(op: RefOp, owner: string, refs: seq<Ref>, names: set<string>)
    ensures KeepsClients(RefCommands(op, owner, refs))
    ensures AddsWithin(RefCommands(op, owner, refs), names) <==> (op.AddGroupClient? ==> Names(refs) <= names)
  {
    if refs != [] {
      var n := |refs| - 1;
      assert refs == refs[..n] + [refs[n]];
      assert Names(refs) == Names(refs[..n]) + {refs[n].name};
      RefCommandsAdd(op, owner, refs[..n], names);
    }
  }

  lemma AddsConcat(a: seq<Command>, b: seq<Command>, names: set<string>)
    ensures AddsWithin(a + b, names) <==> AddsWithin(a, names) && AddsWithin(b, names)
    ensures KeepsClients(a + b) <==> KeepsClients(a) && KeepsClients(b)
  {
    hide AddsMember;
    assert forall c :: c in a + b <==> c in a || c in b;
  }

  lemma MemberEditsAdd(current: Group, desired: Group, gone: set<string>, names: set<string>)
    ensures KeepsClients(MemberEdits(current, desired, gone))
    ensures AddsWithin(MemberEdits(current, desired, gone), names)
       <==> Names(desired.clients) - Names(current.clients) <= names
  {
    hide RefCommands, Outside, KeepsClients, AddsWithin, Names;
    var added, removed := Outside(desired.clients, Names(current.clients)), Outside(current.clients, Names(desired.clients) + gone);
    OutsideAdds(desired.clients, Names(current.clients));
    RefCommandsAdd(AddGroupClient, desired.name, added, names);
    RefCommandsAdd(RemoveGroupClient, desired.name, removed, names);
    AddsConcat(RefCommands(AddGroupClient, desired.name, added), RefCommands(RemoveGroupClient, desired.name, removed), names);
  }

  lemma OutsideAdds(refs: seq<Ref>, names: set<string>)
    ensures Names(Outside(refs, names)) == Names(refs) - names
  {
  }

  lemma GroupEditsAdd(current: Group, desired: Group, names: set<string>)
    ensures KeepsClients(GroupEdits(current, desired))
    ensures AddsWithin(GroupEdits(current, desired), names)
       <==> Names(desired.clients) - Names(current.clients) <= names
  {
    hide RefCommands, Outside, MemberEdits, Names;
    var texts := if current.texts != desired.texts then [ModifyGroup(desired.name, desired.texts)] else [];
    var added := RefCommands(AddGroupRole, desired.name, Outside(desired.roles, Names(current.roles)));
    var removed := RefCommands(RemoveGroupRole, desired.name, Outside(current.roles, Names(desired.roles)));
    RefCommandsAdd(AddGroupRole, desired.name, Outside(desired.roles, Names(current.roles)), names);
    RefCommandsAdd(RemoveGroupRole, desired.name, Outside(current.roles, Names(desired.roles)), names);
    MemberEditsAdd(current, desired, {}, names);
    AddsConcat(texts, added, names);
    AddsConcat(texts + added, removed, names);
    AddsConcat(texts + added + removed, MemberEdits(current, desired, {}), names);
  }

  /* A group that exists gains members only among the names. */
  predicate Gains(current: seq<Group>, group: Group, names: set<string>) {
    var existing := FindGroup(current, group.name);
    existing.Some? ==> Names(group.clients) - Names(existing.value.clients) <= names
  }

  lemma {:induction false} GroupPhaseAdds(current: seq<Group>, groups: seq<Group>, names: set<string>)
    ensures KeepsClients(GroupPhase(current, groups))
    ensures AddsWithin(GroupPhase(current, groups), names) <==> forall g :: g in groups ==> Gains(current, g, names)
  {
    hide GroupEdits, Names, FindGroup;
    if groups != [] {
      var n := |groups| - 1;
      var group := groups[n];
      assert groups == groups[..n] + [group];
      GroupPhaseAdds(current, groups[..n], names);
      var existing := FindGroup(current, group.name);
      if existing.Some? {
        GroupEditsAdd(existing.value, group, names);
      }
      assert AddsWithin(GroupCommands(current, group), names) <==> Gains(current, group, names);
      assert forall g :: g in groups <==> g in groups[..n] || g == group;
      AddsConcat(GroupPhase(current, groups[..n]), GroupCommands(current, group), names);
    }
  }

  lemma {:induction false} MemberPhaseAdds(current: seq<Group>, groups: seq<Group>, gone: set<string>, names: set<string>)
    requires forall g :: g in groups ==> Names(g.clients) <= names
    ensures KeepsClients(MemberPhase(current, groups, gone))
    ensures AddsWithin(MemberPhase(current, groups, gone), names)
  {
    hide MemberEdits, RefCommands, Outside, Names;
    if groups != [] {
      var n := |groups| - 1;
      var group := groups[n];
      MemberPhaseAdds(current, groups[..n], gone, names);
      var existing := FindGroup(current, group.name);
      assert group in groups;
      if existing.Some? {
        MemberEditsAdd(existing.value, group, gone, names);
      } else {
        OutsideAdds(group.clients, {});
        RefCommandsAdd(AddGroupClient, group.name, Outside(group.clients, {}), names);
      }
      AddsConcat(MemberPhase(current, groups[..n], gone), MemberCommands(current, group, gone), names);
    }
  }

  // ---------------------------------------------------------------- the other phases

  lemma {:induction false} RemovalsAdd(role: string, entries: seq<ACL>)
    ensures KeepsClients(Removals(role, entries)) && AddsWithin(Removals(role, entries), {})
  {
    if entries != [] {
      RemovalsAdd(role, entries[..|entries| - 1]);
    }
  }

  lemma {:induction false} AdditionsAdd(current: seq<ACL>, role: string, entries: seq<ACL>)
    ensures KeepsClients(Additions(current, role, entries)) && AddsWithin(Additions(current, role, entries), {})
  {
    hide FindEntry;
    if entries != [] {
      var n := |entries| - 1;
      AdditionsAdd(current, role, entries[..n]);
      AddsConcat(Additions(current, role, entries[..n]), Addition(current, role, entries[n]), {});
    }
  }

  lemma {:induction false} RolePhaseAdds(current: seq<Role>, roles: seq<Role>)
    ensures KeepsClients(RolePhase(current, roles)) && AddsWithin(RolePhase(current, roles), {})
  {
    hide Removals, Additions, Removed, Added;
    if roles != [] {
      var n := |roles| - 1;
      var role := roles[n];
      RolePhaseAdds(current, roles[..n]);
      var existing := FindRole(current, role.name);
      if existing.Some? {
        var removed, added := Removed(existing.value.acls, role.acls), Added(existing.value.acls, role.acls);
        RemovalsAdd(role.name, removed);
        AdditionsAdd(existing.value.acls, role.name, added);
        var texts := if existing.value.texts != role.texts then [ModifyRole(role.name, role.texts)] else [];
        AddsConcat(texts, Removals(role.name, removed), {});
        AddsConcat(texts + Removals(role.name, removed), Additions(existing.value.acls, role.name, added), {});
      }
      AddsConcat(RolePhase(current, roles[..n]), RoleCommands(current, role), {});
    }
  }

  lemma ClientEditsAdd(current: Client, desired: Client)
    ensures AddsWithin(ClientEdits(current, desired), {})
  {
    hide RefCommands, Outside;
    var added := RefCommands(AddClientRole, desired.name, Outside(desired.roles, Names(current.roles)));
    var removed := RefCommands(RemoveClientRole, desired.name, Outside(current.roles, Names(desired.roles)));
    RefCommandsAdd(AddClientRole, desired.name, Outside(desired.roles, Names(current.roles)), {});
    RefCommandsAdd(RemoveClientRole, desired.name, Outside(current.roles, Names(desired.roles)), {});
    OwnEditsAdd(current, desired);
    hide AddsWithin, KeepsClients, OwnEdits;
    AddsConcat(OwnEdits(current, desired), added, {});
    AddsConcat(OwnEdits(current, desired) + added, removed, {});
  }

  lemma OwnEditsAdd(current: Client, desired: Client)
    ensures AddsWithin(OwnEdits(current, desired), {})
  {
  }

  lemma {:induction false} ClientPhaseAdds(current: seq<Client>, clients: seq<Client>)
    ensures AddsWithin(ClientPhase(current, clients), {})
  {
    hide ClientEdits;
    if clients != [] {
      var n := |clients| - 1;
      var client := clients[n];
      ClientPhaseAdds(current, clients[..n]);
      var existing := FindClient(current, client.name);
      if existing.Some? {
        ClientEditsAdd(existing.value, client);
      }
      AddsConcat(ClientPhase(current, clients[..n]), ClientCommands(current, client), {});
    }
  }

  lemma {:induction false} DeletionsAdd(kind: ObjectKind, names: seq<string>)
    requires kind in {ClientObject, GroupObject, RoleObject}
    ensures AddsWithin(Deletions(kind, names), {})
  {
    if names != [] {
      DeletionsAdd(kind, names[..|names| - 1]);
    }
  }

  lemma CleanUpAdds(current: Document, desired: Document)
    ensures AddsWithin(CleanUp(current, desired) + Settings(current, desired), {})
  {
    hide Deletions, Gone;
    DeletionsAdd(ClientObject, GoneClients(current, desired));
    DeletionsAdd(GroupObject, GoneGroups(current, desired));
    DeletionsAdd(RoleObject, GoneRoles(current, desired));
    var clients, groups, roles := Deletions(ClientObject, GoneClients(current, desired)),
        Deletions(GroupObject, GoneGroups(current, desired)), Deletions(RoleObject, GoneRoles(current, desired));
    AddsConcat(clients, groups, {});
    AddsConcat(clients + groups, roles, {});
    AddsConcat(CleanUp(current, desired), Settings(current, desired), {});
  }

  // ---------------------------------------------------------------- the whole plan

  lemma NoneAdded(db: Database, commands: seq<Command>)
    requires AddsWithin(commands, {})
    ensures AllKnown(db, commands)
  {
    hide AddsMember;
    NothingAdded(db, commands);
  }

  lemma FivePartsKnown(db: Database, a: seq<Command>, b: seq<Command>, c: seq<Command>, d: seq<Command>, e: seq<Command>)
    ensures AllKnown(db, a + b + c + d + e)
         == (AllKnown(db, a) && AllKnown(Run(db, a), b) && AllKnown(Run(db, a + b), c)
             && AllKnown(Run(db, a + b + c), d) && AllKnown(Run(db, a + b + c + d), e))
  {
    hide AllKnown, Run;
    AllKnownConcat(db, a, b);
    AllKnownConcat(db, a + b, c);
    AllKnownConcat(db, a + b + c, d);
    AllKnownConcat(db, a + b + c + d, e);
  }

  /* Every client a plan adds to a group exists at that point exactly when no group that exists
     already gains a client that does not. */
  lemma MembersExistExactly(before: Database, current: Document, desired: Document)
    requires Sound(before) && Represents(current, before) && ValidDocument(desired)
    ensures AllKnown(before, PlanCommands(current, desired))
       <==> forall g :: g in desired.groups ==> Gains(current.groups, g, before.clients.Keys)
  {
    hide Run, AllKnown, AddsWithin, KeepsClients, Sound, Represents, ValidDocument, Gains, RolePhase, GroupPhase, ClientPhase,
         MemberPhase, CleanUp, Settings, GoneClients, RolesReached, GroupsReached, BuildUp;
    var gone := NameSet(GoneClients(current, desired));
    var roles, groups := RolePhase(current.roles, desired.roles), GroupPhase(current.groups, desired.groups);
    var clients, members := ClientPhase(current.clients, desired.clients), MemberPhase(current.groups, desired.groups, gone);
    var rest := CleanUp(current, desired) + Settings(current, desired);
    BuildUpParts(current, desired);
    assert PlanCommands(current, desired) == roles + groups + clients + members + rest;
    FivePartsKnown(before, roles, groups, clients, members, rest);

    RolePhaseAdds(current.roles, desired.roles);
    NoneAdded(before, roles);
    KnownExactly(before, roles);
    GroupPhaseAdds(current.groups, desired.groups, before.clients.Keys);
    KnownExactly(Run(before, roles), groups);
    ClientPhaseAdds(current.clients, desired.clients);
    NoneAdded(Run(before, roles + groups), clients);
    CleanUpAdds(current, desired);
    NoneAdded(Run(before, roles + groups + clients + members), rest);

    var db3 := DesiredClientsExist(before, current, desired);
    ValidNamesAndRefs(desired);
    MemberPhaseAdds(current.groups, desired.groups, gone, NameSet(ClientNames(desired.clients)));
    WiderNames(members, NameSet(ClientNames(desired.clients)), db3.clients.Keys);
    KnownExactly(db3, members);
  }

  lemma WiderNames(commands: seq<Command>, names: set<string>, wider: set<string>)
    requires AddsWithin(commands, names) && names <= wider
    ensures AddsWithin(commands, wider)
  {
  }

  /* When the memberships are changed for the second time, every desired client exists. */
  lemma DesiredClientsExist(before: Database, current: Document, desired: Document) returns (db3: Database)
    requires Sound(before) && Represents(current, before) && ValidDocument(desired)
    ensures db3 == Run(before, RolePhase(current.roles, desired.roles) + GroupPhase(current.groups, desired.groups)
                               + ClientPhase(current.clients, desired.clients))
    ensures NameSet(ClientNames(desired.clients)) <= db3.clients.Keys
  {
    hide Run, Sound, Represents, ValidDocument, RolePhase, GroupPhase, ClientPhase, RolesReached, GroupsReached, SettledClient;
    var db1 := RoleStage(before, current, desired);
    var db2 := GroupStage(before, current, desired, db1);
    db3 := ClientStage(before, current, desired, db1, db2);
    var roles, groups := RolePhase(current.roles, desired.roles), GroupPhase(current.groups, desired.groups);
    RunConcat(before, roles, groups);
    RunConcat(before, roles + groups, ClientPhase(current.clients, desired.clients));
  }

  lemma {:induction false} KnownFirst(db: Database, commands: seq<Command>)
    requires AllKnown(db, commands) && commands != []
    ensures Known(db, commands[0])
  {
    hide Known, Step;
    var n := |commands| - 1;
    if n > 0 {
      KnownFirst(db, commands[..n]);
    }
  }

  /* A plan that does so: a group gains a client the document also introduces. The first command
     adds the client, the second creates it, the third adds it again. */
  lemma EarlyMember(db: Database, defaults: DefaultAccess)
    requires "c" !in db.clients
    ensures var texts := Texts("", "");
            var add := Refer(AddGroupClient, "g", "c", Some(0));
            var current := Document([], [Group("g", texts, [], [])], [], defaults, "");
            var desired := Document([Client("c", texts, "", "", [], [Ref("g", 0)], false)],
                                    [Group("g", texts, [], [Ref("c", 0)])], [], defaults, "");
            && PlanCommands(current, desired) == [add, CreateClient("c", texts, "", "", []), add]
            && !AllKnown(db, PlanCommands(current, desired))
  {
    hide Run, AllKnown, BuildUp, CleanUp, Settings, RolePhase, GroupPhase, ClientPhase, MemberPhase, GoneClients;
    var texts := Texts("", "");
    var add := Refer(AddGroupClient, "g", "c", Some(0));
    var client := Client("c", texts, "", "", [], [Ref("g", 0)], false);
    var held, wanted := Group("g", texts, [], []), Group("g", texts, [], [Ref("c", 0)]);
    var current, desired := Document([], [held], [], defaults, ""), Document([client], [wanted], [], defaults, "");
    EarlyPhases(held, wanted, client, add);
    var gone := NameSet(GoneClients(current, desired));
    NothingToDelete(current, desired);
    NothingToSet(current, desired);
    BuildUpParts(current, desired);
    EarlyMemberPhase(held, wanted, add, gone);
    assert PlanCommands(current, desired) == [add, CreateClient("c", texts, "", "", []), add];
    if AllKnown(db, PlanCommands(current, desired)) {
      KnownFirst(db, PlanCommands(current, desired));
    }
  }

  lemma NothingToDelete(current: Document, desired: Document)
    requires current.clients == [] && current.roles == [] && |current.groups| == 1 && |desired.groups| == 1
    requires current.groups[0].name == desired.groups[0].name
    ensures CleanUp(current, desired) == []
  {
    assert GroupNames(current.groups) == GroupNames(desired.groups);
    NothingGone(GroupNames(current.groups), GroupNames(desired.groups));
    assert ClientNames(current.clients) == [] && RoleNames(current.roles) == [];
  }

  lemma NothingToSet(current: Document, desired: Document)
    requires current.defaults == desired.defaults && current.anonymous == desired.anonymous
    ensures Settings(current, desired) == []
  {
  }

  lemma EarlyPhases(held: Group, wanted: Group, client: Client, add: Command)
    requires held.name == wanted.name == "g" && held.texts == wanted.texts && held.roles == wanted.roles == []
    requires held.clients == [] && wanted.clients == [Ref("c", 0)] && add == Refer(AddGroupClient, "g", "c", Some(0))
    ensures RolePhase([], []) == []
    ensures GroupPhase([held], [wanted]) == [add]
    ensures ClientPhase([], [client])
         == [CreateClient(client.name, client.texts, client.clientId, client.password, client.roles)]
  {
    hide MemberEdits;
    EarlyMemberEdits(held, wanted, add, {});
    assert [held][0] == held && FindGroup([held], "g") == Some(held);
    assert [wanted][..0] == [] && [client][..0] == [];
  }

  lemma EarlyMemberPhase(held: Group, wanted: Group, add: Command, gone: set<string>)
    requires held.name == wanted.name == "g"
    requires held.clients == [] && wanted.clients == [Ref("c", 0)] && add == Refer(AddGroupClient, "g", "c", Some(0))
    ensures MemberPhase([held], [wanted], gone) == [add]
  {
    hide MemberEdits;
    EarlyMemberEdits(held, wanted, add, gone);
    assert [held][0] == held && FindGroup([held], "g") == Some(held);
    assert [wanted][..0] == [];
  }

  lemma EarlyMemberEdits(held: Group, wanted: Group, add: Command, gone: set<string>)
    requires wanted.name == "g"
    requires held.clients == [] && wanted.clients == [Ref("c", 0)] && add == Refer(AddGroupClient, "g", "c", Some(0))
    ensures MemberEdits(held, wanted, gone) == [add]
  {
    assert Names([]) == {} && wanted.clients[..0] == [];
    assert Outside(wanted.clients, Names(held.clients)) == [Ref("c", 0)];
    assert [Ref("c", 0)][..0] == [];
    assert RefCommands(AddGroupClient, "g", [Ref("c", 0)]) == [add];
    assert Outside(held.clients, Names(wanted.clients) + gone) == [];
    assert RefCommands(RemoveGroupClient, "g", []) == [];
  }
}
