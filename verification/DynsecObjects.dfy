/**
 What the planned commands of one role, group or client do to the database of the plugin.
 */
module DynsecObjects {
  import opened DynsecModel
  import opened DynsecPlan
  import opened DynsecDatabase

  // ---------------------------------------------------------------- references

  lemma ReferredNothing(db: Database, op: RefOp, owner: string)
    requires FindsRefs(db, op, owner, {})
    ensures Referred(db, op, owner, []) == db
  {
    assert Names([]) == {};
    match op
    case AddGroupRole => assert db.groups[owner := db.groups[owner]] == db.groups;
    case RemoveGroupRole =>
      assert db.groups[owner].roles - {} == db.groups[owner].roles;
      assert db.groups[owner := db.groups[owner]] == db.groups;
    case AddGroupClient =>
    case RemoveGroupClient =>
    case AddClientRole => assert db.clients[owner := db.clients[owner]] == db.clients;
    case RemoveClientRole =>
      assert db.clients[owner].roles - {} == db.clients[owner].roles;
      assert db.clients[owner := db.clients[owner]] == db.clients;
  }

  lemma PutRefsSnoc(held: Held, refs: seq<Ref>, ref: Ref)
    ensures PutRefs(held, refs + [ref]) == PutRefs(held, refs)[ref.name := ref.priority]
    ensures PutRefs(PutRefs(held, refs), [ref]) == PutRefs(held, refs)[ref.name := ref.priority]
  {
    hide Names;
    assert (refs + [ref])[..|refs|] == refs;
    assert [ref][..0] == [];
  }

  lemma WithoutSnoc(held: Held, refs: seq<Ref>, ref: Ref)
    ensures held - Names(refs + [ref]) == held - Names(refs) - Names([ref])
  {
    assert Names(refs + [ref]) == Names(refs) + Names([ref]);
  }

  lemma PairsSnoc(group: string, refs: seq<Ref>, ref: Ref)
    ensures Pairs(group, Names(refs + [ref])) == Pairs(group, Names(refs)) + Pairs(group, Names([ref]))
  {
    assert Names(refs + [ref]) == Names(refs) + Names([ref]);
  }

  lemma OverwriteRole(db: Database, role: string, a: RoleState, b: RoleState)
    ensures WithRole(WithRole(db, role, a), role, b) == WithRole(db, role, b)
  {
    assert db.roles[role := a][role := b] == db.roles[role := b];
  }

  lemma OverwriteGroup(db: Database, group: string, a: GroupState, b: GroupState)
    ensures WithGroup(WithGroup(db, group, a), group, b) == WithGroup(db, group, b)
  {
    assert db.groups[group := a][group := b] == db.groups[group := b];
  }

  lemma OverwriteClient(db: Database, client: string, a: ClientState, b: ClientState)
    ensures WithClient(WithClient(db, client, a), client, b) == WithClient(db, client, b)
    ensures client in WithClient(db, client, a).clients && WithClient(db, client, a).clients[client] == a
  {
    assert db.clients[client := a][client := b] == db.clients[client := b];
  }

  lemma ReferredSnoc(db: Database, op: RefOp, owner: string, refs: seq<Ref>, ref: Ref)
    requires FindsRefs(db, op, owner, {})
    ensures FindsRefs(Referred(db, op, owner, refs), op, owner, {})
    ensures Referred(Referred(db, op, owner, refs), op, owner, [ref]) == Referred(db, op, owner, refs + [ref])
    ensures Referred(db, op, owner, refs).roles == db.roles
  {
    hide PutRefs, Names, Pairs;
    PairsSnoc(owner, refs, ref);
    if owner in db.groups {
      var state := db.groups[owner];
      PutRefsSnoc(state.roles, refs, ref);
      WithoutSnoc(state.roles, refs, ref);
      OverwriteGroup(db, owner, state.(roles := PutRefs(state.roles, refs)), state.(roles := PutRefs(state.roles, refs + [ref])));
      OverwriteGroup(db, owner, state.(roles := state.roles - Names(refs)), state.(roles := state.roles - Names(refs + [ref])));
    }
    if owner in db.clients {
      var state := db.clients[owner];
      PutRefsSnoc(state.roles, refs, ref);
      WithoutSnoc(state.roles, refs, ref);
      OverwriteClient(db, owner, state.(roles := PutRefs(state.roles, refs)), state.(roles := PutRefs(state.roles, refs + [ref])));
      OverwriteClient(db, owner, state.(roles := state.roles - Names(refs)), state.(roles := state.roles - Names(refs + [ref])));
    }
  }

  /* Removing a reference does not look at its priority. */
  lemma ReferredByCommand(db: Database, op: RefOp, owner: string, ref: Ref)
    requires FindsRefs(db, op, owner, {ref.name})
    ensures Safe(db, RefCommand(op, owner, ref))
    ensures Step(db, RefCommand(op, owner, ref)) == Referred(db, op, owner, [ref])
  {
    assert Names([ref]) == {ref.name};
    assert Names([Ref(ref.name, 0)]) == {ref.name};
  }

  lemma {:induction false} RefsRun(db: Database, op: RefOp, owner: string, refs: seq<Ref>)
    requires FindsRefs(db, op, owner, Names(refs))
    ensures AllSafe(db, RefCommands(op, owner, refs))
    ensures Run(db, RefCommands(op, owner, refs)) == Referred(db, op, owner, refs)
  {
    hide Step, Safe, Referred, RefCommand;
    if refs == [] {
      ReferredNothing(db, op, owner);
    } else {
      var n := |refs| - 1;
      assert refs == refs[..n] + [refs[n]];
      assert Names(refs) == Names(refs[..n]) + {refs[n].name};
      RefsRun(db, op, owner, refs[..n]);
      ReferredSnoc(db, op, owner, refs[..n], refs[n]);
      ReferredByCommand(Referred(db, op, owner, refs[..n]), op, owner, refs[n]);
      var commands := RefCommands(op, owner, refs[..n]);
      assert (commands + [RefCommand(op, owner, refs[n])])[..|commands|] == commands;
    }
  }

  /* The roles held after the missing ones were given and the others taken away. The priority
     of a role already held stays what it was. */
  function Merged(held: Held, refs: seq<Ref>): Held {
    map name | name in Names(refs) :: if name in held then held[name] else PutRefs(map[], refs)[name]
  }

  lemma {:induction false} PutRefsAt(held: Held, refs: seq<Ref>, name: string)
    ensures name in PutRefs(held, refs) <==> name in held || name in Names(refs)
    ensures name !in Names(refs) && name in held ==> PutRefs(held, refs)[name] == held[name]
    ensures name in Names(refs) ==> PutRefs(held, refs)[name] == PutRefs(map[], refs)[name]
  {
    if refs != [] {
      var n := |refs| - 1;
      assert refs == refs[..n] + [refs[n]];
      assert Names(refs) == Names(refs[..n]) + {refs[n].name};
      PutRefsAt(held, refs[..n], name);
      PutRefsAt(map[], refs[..n], name);
    }
  }

  /* Leaving out references to other names does not change what a name gets. */
  lemma {:induction false} PutOutsideAt(refs: seq<Ref>, names: set<string>, name: string)
    requires name !in names
    ensures name in Names(Outside(refs, names)) <==> name in Names(refs)
    ensures name in Names(refs) ==> PutRefs(map[], Outside(refs, names))[name] == PutRefs(map[], refs)[name]
  {
    hide Outside, PutRefs;
    OutsideNames(refs, names);
    if refs != [] {
      var n := |refs| - 1;
      var rest := Outside(refs[..n], names);
      assert refs == refs[..n] + [refs[n]];
      PutOutsideAt(refs[..n], names, name);
      OutsideNames(refs[..n], names);
      OutsideSnoc(refs[..n], refs[n], names);
      PutRefsSnoc(map[], rest, refs[n]);
      PutRefsSnoc(map[], refs[..n], refs[n]);
    }
  }

  lemma OutsideNames(refs: seq<Ref>, names: set<string>)
    ensures Names(Outside(refs, names)) == Names(refs) - names
  {
  }

  lemma MergeRefs(current: seq<Ref>, desired: seq<Ref>)
    ensures PutRefs(PutRefs(map[], current), Outside(desired, Names(current))) - Names(Outside(current, Names(desired)))
         == Merged(PutRefs(map[], current), desired)
  {
    hide PutRefs, Outside;
    var held := PutRefs(map[], current);
    var added := Outside(desired, Names(current));
    var left := PutRefs(held, added) - Names(Outside(current, Names(desired)));
    OutsideNames(desired, Names(current));
    OutsideNames(current, Names(desired));
    forall name
      ensures name in left <==> name in Merged(held, desired)
      ensures name in left ==> left[name] == Merged(held, desired)[name]
    {
      PutRefsAt(map[], current, name);
      PutRefsAt(held, added, name);
      PutRefsAt(map[], desired, name);
      if name !in Names(current) {
        PutOutsideAt(desired, Names(current), name);
      }
    }
  }

  /* Every role already held is wanted with the priority it has. */
  predicate KeepsPriorities(held: Held, refs: seq<Ref>) {
    forall name :: name in Names(refs) && name in held ==> held[name] == PutRefs(map[], refs)[name]
  }

  /* The roles come out with the wanted priorities exactly when no held role is to change its own. */
  lemma MergedExactly(held: Held, refs: seq<Ref>)
    ensures Merged(held, refs) == PutRefs(map[], refs) <==> KeepsPriorities(held, refs)
  {
    hide PutRefs;
    var merged, wanted := Merged(held, refs), PutRefs(map[], refs);
    assert merged.Keys == wanted.Keys == Names(refs);
    if merged == wanted {
      forall name | name in Names(refs) && name in held ensures held[name] == wanted[name] {
        assert merged[name] == held[name];
      }
    }
  }

  // ---------------------------------------------------------------- access entries

  function Keys(entries: seq<ACL>): set<(string, string)> {
    set entry | entry in entries :: Key(entry)
  }

  lemma KeysSnoc(held: Entries, entries: seq<ACL>, n: nat)
    requires |entries| == n + 1
    ensures held - Keys(entries[..n]) - {Key(entries[n])} == held - Keys(entries)
  {
    assert entries == entries[..n] + [entries[n]];
    assert Keys(entries) == Keys(entries[..n]) + {Key(entries[n])};
  }

  lemma RemovalRun(db: Database, role: string, entry: ACL)
    requires role in db.roles
    ensures AllSafe(db, [Removal(role, entry)])
    ensures Run(db, [Removal(role, entry)])
         == WithRole(db, role, db.roles[role].(entries := db.roles[role].entries - {Key(entry)}))
  {
    RunOne(db, Removal(role, entry));
  }

  lemma {:induction false} RemovalsRun(db: Database, role: string, entries: seq<ACL>)
    requires role in db.roles
    ensures AllSafe(db, Removals(role, entries))
    ensures Run(db, Removals(role, entries))
         == WithRole(db, role, db.roles[role].(entries := db.roles[role].entries - Keys(entries)))
  {
    var state := db.roles[role];
    if entries == [] {
      assert state.entries - Keys(entries) == state.entries;
      assert db.roles[role := state] == db.roles;
    } else {
      var n := |entries| - 1;
      RemovalsRun(db, role, entries[..n]);
      var before := state.(entries := state.entries - Keys(entries[..n]));
      RunConcat(db, Removals(role, entries[..n]), [Removal(role, entries[n])]);
      RemovalRun(WithRole(db, role, before), role, entries[n]);
      KeysSnoc(state.entries, entries, n);
      OverwriteRole(db, role, before, state.(entries := state.entries - Keys(entries)));
    }
  }

  /* An entry taken out before it is added again ends up as one added over the other. */
  lemma AdditionRun(db: Database, current: seq<ACL>, role: string, entry: ACL)
    requires role in db.roles
    ensures AllSafe(db, Addition(current, role, entry))
    ensures Run(db, Addition(current, role, entry))
         == WithRole(db, role, db.roles[role].(entries := PutEntry(db.roles[role].entries, entry)))
  {
    hide Run, AllSafe;
    var entries := db.roles[role].entries;
    RunOne(db, AddRoleACL(role, entry));
    RunOne(db, Removal(role, entry));
    var removed := Step(db, Removal(role, entry));
    RunConcat(db, [Removal(role, entry)], [AddRoleACL(role, entry)]);
    RunOne(removed, AddRoleACL(role, entry));
    assert PutEntry(entries - {Key(entry)}, entry) == PutEntry(entries, entry);
    RunConcat(db, [], [AddRoleACL(role, entry)]);
    assert [] + [AddRoleACL(role, entry)] == [AddRoleACL(role, entry)];
  }

  lemma {:induction false} AdditionsRun(db: Database, current: seq<ACL>, role: string, entries: seq<ACL>)
    requires role in db.roles
    ensures AllSafe(db, Additions(current, role, entries))
    ensures Run(db, Additions(current, role, entries))
         == WithRole(db, role, db.roles[role].(entries := PutEntries(db.roles[role].entries, entries)))
  {
    hide Addition;
    if entries == [] {
      assert db.roles[role := db.roles[role]] == db.roles;
    } else {
      var n := |entries| - 1;
      AdditionsRun(db, current, role, entries[..n]);
      RunConcat(db, Additions(current, role, entries[..n]), Addition(current, role, entries[n]));
      AdditionRun(Run(db, Additions(current, role, entries[..n])), current, role, entries[n]);
    }
  }

  lemma {:induction false} PutEntriesAt(entries: Entries, added: seq<ACL>, key: (string, string))
    ensures key in PutEntries(entries, added) <==> key in entries || key in Keys(added)
    ensures key !in Keys(added) && key in entries ==> PutEntries(entries, added)[key] == entries[key]
  {
    if added != [] {
      var n := |added| - 1;
      assert added == added[..n] + [added[n]];
      assert Keys(added) == Keys(added[..n]) + {Key(added[n])};
      PutEntriesAt(entries, added[..n], key);
    }
  }

  lemma {:induction false} PutEntriesOf(entries: Entries, added: seq<ACL>, entry: ACL)
    requires DistinctKeys(added) && entry in added
    ensures Key(entry) in PutEntries(entries, added)
    ensures PutEntries(entries, added)[Key(entry)] == Entry(entry.allow, entry.priority)
  {
    var n := |added| - 1;
    if entry != added[n] {
      assert entry in added[..n];
      PutEntriesOf(entries, added[..n], entry);
      var i :| 0 <= i < n && added[i] == entry;
      assert Key(added[i]) != Key(added[n]);
    }
  }

  lemma {:induction false} AddedDistinct(current: seq<ACL>, desired: seq<ACL>)
    requires DistinctKeys(desired)
    ensures DistinctKeys(Added(current, desired))
  {
    hide Differs;
    if desired != [] {
      var n := |desired| - 1;
      AddedDistinct(current, desired[..n]);
      var rest := Added(current, desired[..n]);
      forall i | 0 <= i < |rest| ensures Key(rest[i]) != Key(desired[n]) {
        assert rest[i] in desired[..n];
        var j :| 0 <= j < n && desired[j] == rest[i];
        assert Key(desired[j]) != Key(desired[n]);
      }
    }
  }

  lemma SameKeySameEntry(entries: seq<ACL>, a: ACL, b: ACL)
    requires DistinctKeys(entries) && a in entries && b in entries && Key(a) == Key(b)
    ensures a == b
  {
    var i :| 0 <= i < |entries| && entries[i] == a;
    var j :| 0 <= j < |entries| && entries[j] == b;
    assert !(i < j) && !(j < i);
  }

  /* One entry of the wanted list, after the patch. */
  lemma PatchedEntry(current: seq<ACL>, desired: seq<ACL>, entry: ACL)
    requires DistinctKeys(current) && DistinctKeys(desired) && entry in desired
    ensures var patched := PutEntries(PutEntries(map[], current) - Keys(Removed(current, desired)), Added(current, desired));
            Key(entry) in patched && patched[Key(entry)] == Entry(entry.allow, entry.priority)
  {
    hide PutEntries, Added, Removed;
    var key := Key(entry);
    var kept := PutEntries(map[], current) - Keys(Removed(current, desired));
    var added := Added(current, desired);
    AddedDistinct(current, desired);
    if Differs(current, entry) {
      PutEntriesOf(kept, added, entry);
    } else {
      var previous := FindEntry(current, key).value;
      PutEntriesOf(map[], current, previous);
      assert key !in Keys(Removed(current, desired)) by {
        assert FindEntry(desired, key).Some?;
      }
      assert key !in Keys(added) by {
        forall e | e in added ensures Key(e) != key {
          if Key(e) == key { SameKeySameEntry(desired, e, entry); }
        }
      }
      PutEntriesAt(kept, added, key);
    }
  }

  /* Removing and adding what differs turns one list of entries into the other. */
  lemma PatchEntries(current: seq<ACL>, desired: seq<ACL>)
    requires DistinctKeys(current) && DistinctKeys(desired)
    ensures PutEntries(PutEntries(map[], current) - Keys(Removed(current, desired)), Added(current, desired))
         == PutEntries(map[], desired)
  {
    hide PutEntries, Differs;
    var kept := PutEntries(map[], current) - Keys(Removed(current, desired));
    var patched := PutEntries(kept, Added(current, desired));
    var wanted := PutEntries(map[], desired);
    forall key
      ensures key in patched <==> key in wanted
      ensures key in patched ==> patched[key] == wanted[key]
    {
      PutEntriesAt(map[], desired, key);
      PutEntriesAt(kept, Added(current, desired), key);
      PutEntriesAt(map[], current, key);
      if key in Keys(desired) {
        var entry :| entry in desired && Key(entry) == key;
        PutEntriesOf(map[], desired, entry);
        PatchedEntry(current, desired, entry);
      } else if key in Keys(current) {
        var entry :| entry in current && Key(entry) == key;
        assert entry in Removed(current, desired);
      }
    }
  }

  // ---------------------------------------------------------------- one role

  function Texted(db: Database, role: string, texts: Texts): Database
    requires role in db.roles
  {
    WithRole(db, role, db.roles[role].(texts := PutTexts(db.roles[role].texts, texts)))
  }

  /* A text that is held is not to be cleared. */
  predicate KeepsText(held: string, wanted: string) {
    wanted == "" ==> held == ""
  }

  predicate KeepsTexts(held: Texts, wanted: Texts) {
    KeepsText(held.name, wanted.name) && KeepsText(held.description, wanted.description)
  }

  /* Texts come out as wanted exactly when none of them is to be cleared. */
  lemma PutExactly(held: Texts, wanted: Texts)
    ensures PutTexts(held, wanted) == wanted <==> KeepsTexts(held, wanted)
    ensures Put(held.name, Field(wanted.name)) == wanted.name <==> KeepsText(held.name, wanted.name)
  {
  }

  /* A role as planned from the texts the database holds. */
  function PlannedRole(held: Texts, role: Role): RoleState {
    RoleState(PutTexts(held, role.texts), PutEntries(map[], role.acls))
  }

  lemma RoleEditsRun(db: Database, current: Role, desired: Role)
    requires current.name == desired.name && desired.name in db.roles
    requires db.roles[desired.name] == RoleOf(current) && DistinctKeys(current.acls)
    ensures AllSafe(db, RoleEdits(current, desired))
    ensures var after := Run(db, RoleEdits(current, desired));
            && desired.name in after.roles
            && after == WithRole(db, desired.name, after.roles[desired.name])
            && (DistinctKeys(desired.acls) ==> after.roles[desired.name] == PlannedRole(current.texts, desired))
  {
    hide Run, AllSafe, Removals, Additions, Added, Removed, PutEntries, Key, FindEntry;
    var name := desired.name;
    var texts := if current.texts != desired.texts then [ModifyRole(name, desired.texts)] else [];
    var removed, added := Removed(current.acls, desired.acls), Added(current.acls, desired.acls);
    TextsRun(db, name, current.texts, desired.texts);
    var db1 := Run(db, texts);
    RemovalsRun(db1, name, removed);
    var db2 := Run(db1, Removals(name, removed));
    AdditionsRun(db2, current.acls, name, added);
    RunConcat(db, texts, Removals(name, removed));
    RunConcat(db, texts + Removals(name, removed), Additions(current.acls, name, added));
    if DistinctKeys(desired.acls) {
      PatchEntries(current.acls, desired.acls);
    }
  }

  lemma TextsRun(db: Database, role: string, current: Texts, desired: Texts)
    requires role in db.roles && db.roles[role].texts == current
    ensures var commands := if current != desired then [ModifyRole(role, desired)] else [];
            AllSafe(db, commands) && Run(db, commands) == Texted(db, role, desired)
  {
    if current != desired {
      RunOne(db, ModifyRole(role, desired));
    } else {
      assert db.roles[role := db.roles[role]] == db.roles;
    }
  }

  // ---------------------------------------------------------------- one group

  lemma GroupTextsRun(db: Database, group: string, current: Texts, desired: Texts)
    requires group in db.groups && db.groups[group].texts == current
    ensures var commands := if current != desired then [ModifyGroup(group, desired)] else [];
            && AllSafe(db, commands)
            && Run(db, commands) == WithGroup(db, group, db.groups[group].(texts := PutTexts(current, desired)))
  {
    if current != desired {
      RunOne(db, ModifyGroup(group, desired));
    } else {
      assert db.groups[group := db.groups[group]] == db.groups;
    }
  }

  lemma RolesOfGroupRun(db: Database, group: string, current: seq<Ref>, desired: seq<Ref>)
    requires group in db.groups && db.groups[group].roles == PutRefs(map[], current)
    requires Names(current) <= db.roles.Keys && Names(desired) <= db.roles.Keys
    ensures var commands := RefCommands(AddGroupRole, group, Outside(desired, Names(current)))
                          + RefCommands(RemoveGroupRole, group, Outside(current, Names(desired)));
            && AllSafe(db, commands)
            && Run(db, commands)
               == WithGroup(db, group, db.groups[group].(roles := Merged(db.groups[group].roles, desired)))
  {
    hide Run, AllSafe, RefCommands, Outside, PutRefs, Merged;
    var added, removed := Outside(desired, Names(current)), Outside(current, Names(desired));
    OutsideNames(desired, Names(current));
    OutsideNames(current, Names(desired));
    RefsRun(db, AddGroupRole, group, added);
    var db1 := Run(db, RefCommands(AddGroupRole, group, added));
    RefsRun(db1, RemoveGroupRole, group, removed);
    RunConcat(db, RefCommands(AddGroupRole, group, added), RefCommands(RemoveGroupRole, group, removed));
    MergeRefs(current, desired);
  }

  /* Members are added when the current document does not list them, and removed when the
     desired one does not, except those in `gone`. */
  function Rejoined(db: Database, current: Group, desired: Group, gone: set<string>): Database {
    db.(members := db.members + Pairs(desired.name, Names(desired.clients) - Names(current.clients))
                   - Pairs(desired.name, Names(current.clients) - Names(desired.clients) - gone))
  }

  lemma MemberEditsRun(db: Database, current: Group, desired: Group, gone: set<string>)
    requires desired.name in db.groups
    ensures AllSafe(db, MemberEdits(current, desired, gone))
    ensures Run(db, MemberEdits(current, desired, gone)) == Rejoined(db, current, desired, gone)
  {
    hide Run, AllSafe, RefCommands, Outside;
    var name := desired.name;
    var added, removed := Outside(desired.clients, Names(current.clients)), Outside(current.clients, Names(desired.clients) + gone);
    OutsideNames(desired.clients, Names(current.clients));
    OutsideNames(current.clients, Names(desired.clients) + gone);
    assert Names(removed) == Names(current.clients) - Names(desired.clients) - gone;
    RefsRun(db, AddGroupClient, name, added);
    var db1 := Run(db, RefCommands(AddGroupClient, name, added));
    RefsRun(db1, RemoveGroupClient, name, removed);
    RunConcat(db, RefCommands(AddGroupClient, name, added), RefCommands(RemoveGroupClient, name, removed));
  }

  /* A group as planned: its roles merged into those it holds. */
  function PlannedGroup(held: GroupState, group: Group): GroupState {
    GroupState(PutTexts(held.texts, group.texts), Merged(held.roles, group.roles))
  }

  lemma GroupEditsRun(db: Database, current: Group, desired: Group)
    requires current.name == desired.name && desired.name in db.groups
    requires db.groups[desired.name] == GroupState(current.texts, PutRefs(map[], current.roles))
    requires Names(current.roles) <= db.roles.Keys && Names(desired.roles) <= db.roles.Keys
    ensures AllSafe(db, GroupEdits(current, desired))
    ensures Run(db, GroupEdits(current, desired))
         == Rejoined(WithGroup(db, desired.name, PlannedGroup(db.groups[desired.name], desired)), current, desired, {})
  {
    hide Run, AllSafe, RefCommands, Outside, PutRefs, Merged, MemberEdits, Rejoined;
    var name := desired.name;
    var texts := if current.texts != desired.texts then [ModifyGroup(name, desired.texts)] else [];
    var roles := RefCommands(AddGroupRole, name, Outside(desired.roles, Names(current.roles)))
                 + RefCommands(RemoveGroupRole, name, Outside(current.roles, Names(desired.roles)));
    GroupTextsRun(db, name, current.texts, desired.texts);
    var db1 := Run(db, texts);
    RolesOfGroupRun(db1, name, current.roles, desired.roles);
    var db2 := Run(db1, roles);
    MemberEditsRun(db2, current, desired, {});
    RunConcat(db, texts, roles);
    RunConcat(db, texts + roles, MemberEdits(current, desired, {}));
    OverwriteGroup(db, name, db.groups[name].(texts := PutTexts(current.texts, desired.texts)), PlannedGroup(db.groups[name], desired));
    assert GroupEdits(current, desired) == texts + roles + MemberEdits(current, desired, {});
  }

  // ---------------------------------------------------------------- one client

  /* A client as planned from the one the database holds. */
  function PlannedClient(held: ClientState, client: Client): ClientState {
    ClientState(PutTexts(held.texts, client.texts), Put(held.clientId, Field(client.clientId)),
                if client.password != "" then client.password else held.password,
                Merged(held.roles, client.roles), client.disabled)
  }

  lemma DetailsRun(db: Database, current: Client, desired: Client)
    requires desired.name in db.clients
    requires db.clients[desired.name].texts == current.texts && db.clients[desired.name].clientId == current.clientId
    ensures AllSafe(db, DetailEdits(current, desired))
    ensures Run(db, DetailEdits(current, desired))
         == WithClient(db, desired.name,
                       db.clients[desired.name].(texts := PutTexts(current.texts, desired.texts),
                                                 clientId := Put(current.clientId, Field(desired.clientId))))
  {
    assert db.clients[desired.name := db.clients[desired.name]] == db.clients;
    RunOne(db, ModifyClient(desired.name, desired.texts, desired.clientId));
  }

  function NewPassword(held: ClientState, desired: Client): string {
    if desired.password != "" then desired.password else held.password
  }

  lemma PasswordRun(db: Database, desired: Client)
    requires desired.name in db.clients
    ensures AllSafe(db, PasswordEdits(desired))
    ensures Run(db, PasswordEdits(desired))
         == WithClient(db, desired.name, db.clients[desired.name].(password := NewPassword(db.clients[desired.name], desired)))
  {
    assert db.clients[desired.name := db.clients[desired.name]] == db.clients;
    RunOne(db, SetClientPassword(desired.name, desired.password));
  }

  lemma StateRun(db: Database, current: Client, desired: Client)
    requires desired.name in db.clients && db.clients[desired.name].disabled == current.disabled
    ensures AllSafe(db, StateEdits(current, desired))
    ensures Run(db, StateEdits(current, desired))
         == WithClient(db, desired.name, db.clients[desired.name].(disabled := desired.disabled))
  {
    assert db.clients[desired.name := db.clients[desired.name]] == db.clients;
    RunOne(db, DisableClient(desired.name));
    RunOne(db, EnableClient(desired.name));
  }

  lemma OwnEditsRun(db: Database, current: Client, desired: Client)
    requires desired.name in db.clients
    requires db.clients[desired.name].texts == current.texts
    requires db.clients[desired.name].clientId == current.clientId
    requires db.clients[desired.name].disabled == current.disabled
    ensures AllSafe(db, OwnEdits(current, desired))
    ensures Run(db, OwnEdits(current, desired))
         == WithClient(db, desired.name,
                       PlannedClient(db.clients[desired.name], desired).(roles := db.clients[desired.name].roles))
  {
    hide Run, AllSafe, Merged, PutRefs, WithClient, DetailEdits, PasswordEdits, StateEdits;
    var name := desired.name;
    var held := db.clients[name];
    var details, password, disabled :=
      DetailEdits(current, desired), PasswordEdits(desired), StateEdits(current, desired);
    var held1 := held.(texts := PutTexts(held.texts, desired.texts), clientId := Put(held.clientId, Field(desired.clientId)));
    var held2 := held1.(password := NewPassword(held, desired));
    var held3 := held2.(disabled := desired.disabled);
    OverwriteClient(db, name, held1, held2);
    OverwriteClient(db, name, held2, held3);
    DetailsRun(db, current, desired);
    PasswordRun(WithClient(db, name, held1), desired);
    StateRun(WithClient(db, name, held2), current, desired);
    RunConcat(db, details, password);
    RunConcat(db, details + password, disabled);
  }

  lemma RolesOfClientRun(db: Database, client: string, current: seq<Ref>, desired: seq<Ref>)
    requires client in db.clients && db.clients[client].roles == PutRefs(map[], current)
    requires Names(current) <= db.roles.Keys && Names(desired) <= db.roles.Keys
    ensures var commands := RefCommands(AddClientRole, client, Outside(desired, Names(current)))
                          + RefCommands(RemoveClientRole, client, Outside(current, Names(desired)));
            && AllSafe(db, commands)
            && Run(db, commands)
               == WithClient(db, client, db.clients[client].(roles := Merged(db.clients[client].roles, desired)))
  {
    hide Run, AllSafe, RefCommands, Outside, PutRefs, Merged;
    var added, removed := Outside(desired, Names(current)), Outside(current, Names(desired));
    OutsideNames(desired, Names(current));
    OutsideNames(current, Names(desired));
    var state := db.clients[client];
    var grown := state.(roles := PutRefs(state.roles, added));
    OverwriteClient(db, client, grown, state.(roles := Merged(state.roles, desired)));
    RefsRun(db, AddClientRole, client, added);
    var db1 := Run(db, RefCommands(AddClientRole, client, added));
    RefsRun(db1, RemoveClientRole, client, removed);
    RunConcat(db, RefCommands(AddClientRole, client, added), RefCommands(RemoveClientRole, client, removed));
    MergeRefs(current, desired);
  }

  lemma ClientEditsRun(db: Database, current: Client, desired: Client)
    requires current.name == desired.name && ClientHeld(current, db)
    requires Names(current.roles) <= db.roles.Keys && Names(desired.roles) <= db.roles.Keys
    ensures AllSafe(db, ClientEdits(current, desired))
    ensures Run(db, ClientEdits(current, desired))
         == WithClient(db, desired.name, PlannedClient(db.clients[desired.name], desired))
  {
    hide Run, AllSafe, RefCommands, Outside, PutRefs, Merged, OwnEdits;
    var name := desired.name;
    var roles := RefCommands(AddClientRole, name, Outside(desired.roles, Names(current.roles)))
                 + RefCommands(RemoveClientRole, name, Outside(current.roles, Names(desired.roles)));
    OwnEditsRun(db, current, desired);
    var db1 := Run(db, OwnEdits(current, desired));
    RolesOfClientRun(db1, name, current.roles, desired.roles);
    RunConcat(db, OwnEdits(current, desired), roles);
    OverwriteClient(db, name, db1.clients[name], PlannedClient(db.clients[name], desired));
    assert ClientEdits(current, desired) == OwnEdits(current, desired) + roles;
  }
}
