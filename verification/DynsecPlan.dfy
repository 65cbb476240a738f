/**
 The planner of the security database (internal/dynsec/plan.go): the commands that turn the
 current document into the desired one. Every method with a loop is tied to the sequence of
 commands it plans.
 */
module DynsecPlan {
  import opened Strings
  import opened Options
  import opened DynsecModel

  /* The commands that add or remove one reference. */
  datatype RefOp =
    | AddGroupRole | RemoveGroupRole | AddGroupClient | RemoveGroupClient
    | AddClientRole | RemoveClientRole
  {
    predicate Adds() {
      AddGroupRole? || AddGroupClient? || AddClientRole?
    }
  }

  datatype Command =
    | CreateRole(role: string, texts: Texts, acls: seq<ACL>)
    | ModifyRole(role: string, texts: Texts)
    | AddRoleACL(role: string, entry: ACL)
    | RemoveRoleACL(role: string, kind: string, topic: string)
    | DeleteRole(role: string)
    | CreateGroup(group: string, texts: Texts, roles: seq<Ref>)
    | ModifyGroup(group: string, texts: Texts)
    | DeleteGroup(group: string)
    | CreateClient(client: string, texts: Texts, clientId: string, password: string, roles: seq<Ref>)
    | ModifyClient(client: string, texts: Texts, clientId: string)
    | SetClientPassword(client: string, password: string)
    | EnableClient(client: string)
    | DisableClient(client: string)
    | DeleteClient(client: string)
    | Refer(op: RefOp, owner: string, name: string, priority: Option<int>)
    | SetDefaultAccess(access: DefaultAccess)
    | SetAnonymousGroup(group: string)

  datatype ObjectKind = ClientObject | GroupObject | RoleObject | DefaultAccessObject | AnonymousGroupObject

  datatype Action = Create | Update | Delete

  datatype Change = Change(kind: ObjectKind, name: string, action: Action, commands: seq<Command>)

  function Commands(changes: seq<Change>): seq<Command> {
    if changes == [] then []
    else Commands(changes[..|changes| - 1]) + changes[|changes| - 1].commands
  }

  lemma NoCommands()
    ensures Commands([]) == []
  {
  }

  lemma CommandsSnoc(changes: seq<Change>, change: Change)
    ensures Commands(changes + [change]) == Commands(changes) + change.commands
  {
    assert (changes + [change])[..|changes|] == changes;
  }

  lemma {:induction false} CommandsConcat(a: seq<Change>, b: seq<Change>)
    ensures Commands(a + b) == Commands(a) + Commands(b)
  {
    assert Commands([]) == [];
    hide Commands;
    if b == [] {
      assert a + b == a;
    } else {
      var n := |b| - 1;
      CommandsConcat(a, b[..n]);
      assert a + b == (a + b[..n]) + [b[n]];
      assert b == b[..n] + [b[n]];
      CommandsSnoc(a + b[..n], b[n]);
      CommandsSnoc(b[..n], b[n]);
    }
  }

  function OwnerKind(op: RefOp): ObjectKind {
    if op.AddClientRole? || op.RemoveClientRole? then ClientObject else GroupObject
  }

  const DEFAULT_ACCESS := "default_access"
  const ANONYMOUS_GROUP := "anonymous_group"

  /* The object that a command is about. */
  function Target(command: Command): (ObjectKind, string) {
    match command
    case CreateRole(role, _, _) => (RoleObject, role)
    case ModifyRole(role, _) => (RoleObject, role)
    case AddRoleACL(role, _) => (RoleObject, role)
    case RemoveRoleACL(role, _, _) => (RoleObject, role)
    case DeleteRole(role) => (RoleObject, role)
    case CreateGroup(group, _, _) => (GroupObject, group)
    case ModifyGroup(group, _) => (GroupObject, group)
    case DeleteGroup(group) => (GroupObject, group)
    case CreateClient(client, _, _, _, _) => (ClientObject, client)
    case ModifyClient(client, _, _) => (ClientObject, client)
    case SetClientPassword(client, _) => (ClientObject, client)
    case EnableClient(client) => (ClientObject, client)
    case DisableClient(client) => (ClientObject, client)
    case DeleteClient(client) => (ClientObject, client)
    case Refer(op, owner, _, _) => (OwnerKind(op), owner)
    case SetDefaultAccess(_) => (DefaultAccessObject, DEFAULT_ACCESS)
    case SetAnonymousGroup(_) => (AnonymousGroupObject, ANONYMOUS_GROUP)
  }

  /* What a command does to its object. */
  function Effect(command: Command): Action {
    if command.CreateRole? || command.CreateGroup? || command.CreateClient? then Create
    else if command.DeleteRole? || command.DeleteGroup? || command.DeleteClient? then Delete
    else Update
  }

  /* A change whose commands are about the object it names and do what it says. */
  predicate Fits(change: Change) {
    && change.commands != []
    && forall command :: command in change.commands ==>
         Target(command) == (change.kind, change.name) && Effect(command) == change.action
  }

  /* Updates of one object. */
  predicate Concern(changes: seq<Change>, kind: ObjectKind, name: string) {
    forall change :: change in changes ==>
      Fits(change) && change.kind == kind && change.name == name && change.action == Update
  }

  lemma OneFits(command: Command)
    ensures Fits(Change(Target(command).0, Target(command).1, Effect(command), [command]))
  {
  }

  lemma Join(a: seq<Change>, b: seq<Change>, kind: ObjectKind, name: string)
    requires Concern(a, kind, name) && Concern(b, kind, name)
    ensures Concern(a + b, kind, name)
    ensures Commands(a + b) == Commands(a) + Commands(b)
  {
    hide Fits, Commands;
    CommandsConcat(a, b);
  }

  /* One update of an object, when it is due. */
  method OwnUpdate(due: bool, command: Command) returns (changes: seq<Change>)
    requires Effect(command) == Update
    ensures Commands(changes) == if due then [command] else []
    ensures Concern(changes, Target(command).0, Target(command).1)
  {
    changes := [];
    if due {
      OneFits(command);
      changes := [Change(Target(command).0, Target(command).1, Update, [command])];
    }
  }

  predicate Does(changes: seq<Change>, kind: ObjectKind, name: string, action: Action) {
    exists change :: change in changes && change.kind == kind && change.name == name && change.action == action
  }

  /* Changes that create the objects of a kind that are new and update those that are kept. */
  ghost predicate Settles(changes: seq<Change>, kind: ObjectKind, had: seq<string>, wants: seq<string>) {
    && (forall change :: change in changes ==>
          && Fits(change) && change.kind == kind && change.name in wants
          && change.action == (if change.name in had then Update else Create))
    && (forall name :: name in wants && name !in had ==> Does(changes, kind, name, Create))
  }

  lemma NothingSettles(kind: ObjectKind, had: seq<string>)
    ensures Settles([], kind, had, [])
  {
  }

  lemma SettlesStep(changes: seq<Change>, more: seq<Change>, kind: ObjectKind, had: seq<string>, wants: seq<string>,
                    name: string)
    requires Settles(changes, kind, had, wants)
    requires forall change :: change in more ==>
               && Fits(change) && change.kind == kind && change.name == name
               && change.action == (if name in had then Update else Create)
    requires name in had || more != []
    ensures Settles(changes + more, kind, had, wants + [name])
  {
    hide Fits;
    var all := changes + more;
    forall wanted | wanted in wants + [name] && wanted !in had
      ensures Does(all, kind, wanted, Create)
    {
      if wanted == name {
        assert more[0] in all;
      } else {
        assert Does(changes, kind, wanted, Create);
        var change :| change in changes && change.kind == kind && change.name == wanted && change.action == Create;
        assert change in all;
      }
    }
  }

  lemma UpdatesSettle(changes: seq<Change>, updates: seq<Change>, kind: ObjectKind, had: seq<string>, wants: seq<string>,
                      name: string)
    requires Settles(changes, kind, had, wants) && Concern(updates, kind, name) && name in had
    ensures Settles(changes + updates, kind, had, wants + [name])
  {
    hide Settles, Fits;
    SettlesStep(changes, updates, kind, had, wants, name);
  }

  lemma CreationSettles(changes: seq<Change>, command: Command, kind: ObjectKind, had: seq<string>, wants: seq<string>,
                        name: string)
    requires Settles(changes, kind, had, wants) && name !in had
    requires Target(command) == (kind, name) && Effect(command) == Create
    ensures Settles(changes + [Change(kind, name, Create, [command])], kind, had, wants + [name])
  {
    hide Settles, Fits;
    OneFits(command);
    SettlesStep(changes, [Change(kind, name, Create, [command])], kind, had, wants, name);
  }

  /* Membership updates of desired groups. A group that is new only has clients added. */
  ghost predicate Joins(changes: seq<Change>, had: seq<string>, wants: seq<string>) {
    forall change :: change in changes ==>
      && Fits(change) && change.kind == GroupObject && change.action == Update && change.name in wants
      && (change.name in had || OnlyJoins(change))
  }

  predicate OnlyJoins(change: Change) {
    forall command :: command in change.commands ==> command.Refer? && command.op == AddGroupClient
  }

  /* Changes that delete the objects of a kind that are gone. */
  ghost predicate Clears(changes: seq<Change>, kind: ObjectKind, had: seq<string>, wants: seq<string>) {
    && (forall change :: change in changes ==>
          && Fits(change) && change.kind == kind && change.action == Delete
          && change.name in had && change.name !in wants)
    && (forall name :: name in had && name !in wants ==> Does(changes, kind, name, Delete))
  }

  // ---------------------------------------------------------------- references

  function RefCommand(op: RefOp, owner: string, ref: Ref): Command {
    Refer(op, owner, ref.name, if op.Adds() then Some(ref.priority) else None)
  }

  function RefCommands(op: RefOp, owner: string, refs: seq<Ref>): seq<Command> {
    if refs == [] then []
    else
      var n := |refs| - 1;
      RefCommands(op, owner, refs[..n]) + [RefCommand(op, owner, refs[n])]
  }

  lemma RefCommandsSnoc(op: RefOp, owner: string, refs: seq<Ref>, ref: Ref)
    ensures RefCommands(op, owner, refs + [ref]) == RefCommands(op, owner, refs) + [RefCommand(op, owner, ref)]
  {
    assert (refs + [ref])[..|refs|] == refs;
  }

  /* The references that name nothing in a set. */
  function Outside(refs: seq<Ref>, names: set<string>): (rest: seq<Ref>)
    ensures forall ref :: ref in rest <==> ref in refs && ref.name !in names
  {
    if refs == [] then []
    else
      var n := |refs| - 1;
      Outside(refs[..n], names) + if refs[n].name in names then [] else [refs[n]]
  }

  lemma OutsideSnoc(refs: seq<Ref>, ref: Ref, names: set<string>)
    ensures Outside(refs + [ref], names)
         == if ref.name in names then Outside(refs, names) else Outside(refs, names) + [ref]
  {
    assert (refs + [ref])[..|refs|] == refs;
  }

  lemma NoRefCommands(op: RefOp, owner: string, names: set<string>)
    ensures RefCommands(op, owner, Outside([], names)) == []
  {
  }

  /* One loop over references: a change for each that names nothing in the set. */
  method RefChanges(kind: ObjectKind, op: RefOp, owner: string, refs: seq<Ref>, names: set<string>)
    returns (changes: seq<Change>)
    requires kind == OwnerKind(op)
    ensures Commands(changes) == RefCommands(op, owner, Outside(refs, names))
    ensures Concern(changes, kind, owner)
    ensures op == AddGroupClient ==> forall change :: change in changes ==> OnlyJoins(change)
  {
    hide Commands, RefCommands, Outside, Fits;
    changes := [];
    NoCommands();
    NoRefCommands(op, owner, names);
    assert refs[..0] == [];
    for i := 0 to |refs|
      invariant Commands(changes) == RefCommands(op, owner, Outside(refs[..i], names))
      invariant Concern(changes, kind, owner)
      invariant op == AddGroupClient ==> forall change :: change in changes ==> OnlyJoins(change)
    {
      PrefixStep(refs, i);
      OutsideSnoc(refs[..i], refs[i], names);
      if refs[i].name !in names {
        var change := Change(kind, owner, Update, [RefCommand(op, owner, refs[i])]);
        CommandsSnoc(changes, change);
        OneFits(RefCommand(op, owner, refs[i]));
        RefCommandsSnoc(op, owner, Outside(refs[..i], names), refs[i]);
        changes := changes + [change];
      }
    }
    assert refs[..|refs|] == refs;
  }

  // ---------------------------------------------------------------- access entries

  function FindEntry(entries: seq<ACL>, key: (string, string)): (found: Option<ACL>)
    ensures found.Some? ==> found.value in entries && Key(found.value) == key
    ensures found.None? ==> forall e :: e in entries ==> Key(e) != key
  {
    if entries == [] then None
    else if Key(entries[0]) == key then Some(entries[0])
    else FindEntry(entries[1..], key)
  }

  predicate Differs(current: seq<ACL>, entry: ACL) {
    var previous := FindEntry(current, Key(entry));
    previous.None? || previous.value.allow != entry.allow || previous.value.priority != entry.priority
  }

  function Added(current: seq<ACL>, desired: seq<ACL>): (added: seq<ACL>)
    ensures forall e :: e in added <==> e in desired && Differs(current, e)
  {
    if desired == [] then []
    else
      var n := |desired| - 1;
      Added(current, desired[..n]) + if Differs(current, desired[n]) then [desired[n]] else []
  }

  function Removed(current: seq<ACL>, desired: seq<ACL>): (removed: seq<ACL>)
    ensures forall e :: e in removed <==> e in current && FindEntry(desired, Key(e)).None?
  {
    if current == [] then []
    else
      var n := |current| - 1;
      Removed(current[..n], desired) + if FindEntry(desired, Key(current[n])).None? then [current[n]] else []
  }

  method DiffACLs(current: seq<ACL>, desired: seq<ACL>) returns (added: seq<ACL>, removed: seq<ACL>)
    ensures added == Added(current, desired) && removed == Removed(current, desired)
  {
    added, removed := [], [];
    for i := 0 to |desired|
      invariant added == Added(current, desired[..i])
    {
      assert desired[..i + 1][..i] == desired[..i];
      var previous := FindEntry(current, Key(desired[i]));
      if previous.None? {
        added := added + [desired[i]];
      } else if previous.value.allow != desired[i].allow || previous.value.priority != desired[i].priority {
        added := added + [desired[i]];
      }
    }
    for i := 0 to |current|
      invariant removed == Removed(current[..i], desired)
    {
      assert current[..i + 1][..i] == current[..i];
      if FindEntry(desired, Key(current[i])).None? {
        removed := removed + [current[i]];
      }
    }
    assert desired[..|desired|] == desired && current[..|current|] == current;
  }

  function Removal(role: string, entry: ACL): Command {
    RemoveRoleACL(role, entry.kind, entry.topic)
  }

  function Removals(role: string, entries: seq<ACL>): seq<Command> {
    if entries == [] then []
    else
      var n := |entries| - 1;
      Removals(role, entries[..n]) + [Removal(role, entries[n])]
  }

  /* An entry whose priority changed is taken out before it is added again. */
  function Addition(current: seq<ACL>, role: string, entry: ACL): seq<Command> {
    var previous := FindEntry(current, Key(entry));
    (if previous.Some? && previous.value.priority != entry.priority then [Removal(role, entry)] else [])
    + [AddRoleACL(role, entry)]
  }

  function Additions(current: seq<ACL>, role: string, entries: seq<ACL>): seq<Command> {
    if entries == [] then []
    else
      var n := |entries| - 1;
      Additions(current, role, entries[..n]) + Addition(current, role, entries[n])
  }

  // ---------------------------------------------------------------- updates of one object

  function RoleEdits(current: Role, desired: Role): seq<Command> {
    (if current.texts != desired.texts then [ModifyRole(desired.name, desired.texts)] else [])
    + Removals(desired.name, Removed(current.acls, desired.acls))
    + Additions(current.acls, desired.name, Added(current.acls, desired.acls))
  }

  method RemovalChanges(role: string, removed: seq<ACL>) returns (changes: seq<Change>)
    ensures Commands(changes) == Removals(role, removed)
    ensures Concern(changes, RoleObject, role)
  {
    hide Commands, Fits;
    changes := [];
    NoCommands();
    for i := 0 to |removed|
      invariant Commands(changes) == Removals(role, removed[..i])
      invariant Concern(changes, RoleObject, role)
    {
      assert removed[..i + 1][..i] == removed[..i];
      var change := Change(RoleObject, role, Update, [Removal(role, removed[i])]);
      CommandsSnoc(changes, change);
      OneFits(Removal(role, removed[i]));
      changes := changes + [change];
    }
    assert removed[..|removed|] == removed;
  }

  lemma AdditionFits(current: seq<ACL>, role: string, entry: ACL)
    ensures Fits(Change(RoleObject, role, Update, Addition(current, role, entry)))
  {
  }

  method AdditionChanges(current: seq<ACL>, role: string, added: seq<ACL>) returns (changes: seq<Change>)
    ensures Commands(changes) == Additions(current, role, added)
    ensures Concern(changes, RoleObject, role)
  {
    hide Commands, Fits;
    changes := [];
    NoCommands();
    for i := 0 to |added|
      invariant Commands(changes) == Additions(current, role, added[..i])
      invariant Concern(changes, RoleObject, role)
    {
      assert added[..i + 1][..i] == added[..i];
      var commands := [AddRoleACL(role, added[i])];
      var previous := FindEntry(current, Key(added[i]));
      if previous.Some? && previous.value.priority != added[i].priority {
        commands := [Removal(role, added[i])] + commands;
      }
      var change := Change(RoleObject, role, Update, commands);
      CommandsSnoc(changes, change);
      AdditionFits(current, role, added[i]);
      assert commands == Addition(current, role, added[i]);
      changes := changes + [change];
    }
    assert added[..|added|] == added;
  }

  method RoleUpdates(current: Role, desired: Role) returns (changes: seq<Change>)
    ensures Commands(changes) == RoleEdits(current, desired)
    ensures Concern(changes, RoleObject, desired.name)
  {
    hide Removals, Additions, Added, Removed, Concern, Commands;
    var texts := OwnUpdate(current.texts != desired.texts, ModifyRole(desired.name, desired.texts));
    var added, removed := DiffACLs(current.acls, desired.acls);
    var removals := RemovalChanges(desired.name, removed);
    var additions := AdditionChanges(current.acls, desired.name, added);
    Join(texts, removals, RoleObject, desired.name);
    Join(texts + removals, additions, RoleObject, desired.name);
    changes := texts + removals + additions;
  }

  /* The clients to add to and to remove from a group, leaving alone those in `gone`. */
  function MemberEdits(current: Group, desired: Group, gone: set<string>): seq<Command> {
    RefCommands(AddGroupClient, desired.name, Outside(desired.clients, Names(current.clients)))
    + RefCommands(RemoveGroupClient, desired.name, Outside(current.clients, Names(desired.clients) + gone))
  }

  function GroupEdits(current: Group, desired: Group): seq<Command> {
    (if current.texts != desired.texts then [ModifyGroup(desired.name, desired.texts)] else [])
    + RefCommands(AddGroupRole, desired.name, Outside(desired.roles, Names(current.roles)))
    + RefCommands(RemoveGroupRole, desired.name, Outside(current.roles, Names(desired.roles)))
    + MemberEdits(current, desired, {})
  }

  method GroupUpdates(current: Group, desired: Group) returns (changes: seq<Change>)
    ensures Commands(changes) == GroupEdits(current, desired)
    ensures Concern(changes, GroupObject, desired.name)
  {
    hide Outside, RefCommands, OnlyJoins, Concern, Commands;
    var texts := OwnUpdate(current.texts != desired.texts, ModifyGroup(desired.name, desired.texts));
    var addedRoles := RefChanges(GroupObject, AddGroupRole, desired.name, desired.roles, Names(current.roles));
    var removedRoles := RefChanges(GroupObject, RemoveGroupRole, desired.name, current.roles, Names(desired.roles));
    var members := GroupMembershipUpdates(current, desired, {});
    Join(texts, addedRoles, GroupObject, desired.name);
    Join(texts + addedRoles, removedRoles, GroupObject, desired.name);
    Join(texts + addedRoles + removedRoles, members, GroupObject, desired.name);
    changes := texts + addedRoles + removedRoles + members;
  }

  method GroupMembershipUpdates(current: Group, desired: Group, gone: set<string>) returns (changes: seq<Change>)
    ensures Commands(changes) == MemberEdits(current, desired, gone)
    ensures Concern(changes, GroupObject, desired.name)
  {
    hide Outside, RefCommands, OnlyJoins, Concern, Commands;
    var added := RefChanges(GroupObject, AddGroupClient, desired.name, desired.clients, Names(current.clients));
    var removed := RefChanges(GroupObject, RemoveGroupClient, desired.name, current.clients, Names(desired.clients) + gone);
    Join(added, removed, GroupObject, desired.name);
    changes := added + removed;
  }

  function DetailEdits(current: Client, desired: Client): seq<Command> {
    if current.texts != desired.texts || current.clientId != desired.clientId
    then [ModifyClient(desired.name, desired.texts, desired.clientId)] else []
  }

  function PasswordEdits(desired: Client): seq<Command> {
    if desired.password != "" then [SetClientPassword(desired.name, desired.password)] else []
  }

  function StateEdits(current: Client, desired: Client): seq<Command> {
    if current.disabled == desired.disabled then []
    else if desired.disabled then [DisableClient(desired.name)]
    else [EnableClient(desired.name)]
  }

  function OwnEdits(current: Client, desired: Client): seq<Command> {
    DetailEdits(current, desired) + PasswordEdits(desired) + StateEdits(current, desired)
  }

  function ClientEdits(current: Client, desired: Client): seq<Command> {
    OwnEdits(current, desired)
    + RefCommands(AddClientRole, desired.name, Outside(desired.roles, Names(current.roles)))
    + RefCommands(RemoveClientRole, desired.name, Outside(current.roles, Names(desired.roles)))
  }

  method OwnUpdates(current: Client, desired: Client) returns (own: seq<Change>)
    ensures Commands(own) == OwnEdits(current, desired)
    ensures Concern(own, ClientObject, desired.name)
  {
    hide Commands, Concern;
    var details := OwnUpdate(current.texts != desired.texts || current.clientId != desired.clientId,
                             ModifyClient(desired.name, desired.texts, desired.clientId));
    var password := OwnUpdate(desired.password != "", SetClientPassword(desired.name, desired.password));
    var command := if desired.disabled then DisableClient(desired.name) else EnableClient(desired.name);
    var state := OwnUpdate(current.disabled != desired.disabled, command);
    Join(details, password, ClientObject, desired.name);
    Join(details + password, state, ClientObject, desired.name);
    own := details + password + state;
  }

  method ClientUpdates(current: Client, desired: Client) returns (changes: seq<Change>)
    ensures Commands(changes) == ClientEdits(current, desired)
    ensures Concern(changes, ClientObject, desired.name)
  {
    hide Outside, RefCommands, Commands, OwnEdits, Concern, OnlyJoins;
    var own := OwnUpdates(current, desired);
    var added := RefChanges(ClientObject, AddClientRole, desired.name, desired.roles, Names(current.roles));
    var removed := RefChanges(ClientObject, RemoveClientRole, desired.name, current.roles, Names(desired.roles));
    Join(own, added, ClientObject, desired.name);
    Join(own + added, removed, ClientObject, desired.name);
    changes := own + added + removed;
  }

  // ---------------------------------------------------------------- the phases of a plan

  function RoleCommands(current: seq<Role>, role: Role): seq<Command> {
    var existing := FindRole(current, role.name);
    if existing.None? then [CreateRole(role.name, role.texts, role.acls)] else RoleEdits(existing.value, role)
  }

  function RolePhase(current: seq<Role>, roles: seq<Role>): seq<Command> {
    if roles == [] then []
    else RolePhase(current, roles[..|roles| - 1]) + RoleCommands(current, roles[|roles| - 1])
  }

  function GroupCommands(current: seq<Group>, group: Group): seq<Command> {
    var existing := FindGroup(current, group.name);
    if existing.None? then [CreateGroup(group.name, group.texts, group.roles)] else GroupEdits(existing.value, group)
  }

  function GroupPhase(current: seq<Group>, groups: seq<Group>): seq<Command> {
    if groups == [] then []
    else GroupPhase(current, groups[..|groups| - 1]) + GroupCommands(current, groups[|groups| - 1])
  }

  function ClientCommands(current: seq<Client>, client: Client): seq<Command> {
    var existing := FindClient(current, client.name);
    if existing.None? then
      [CreateClient(client.name, client.texts, client.clientId, client.password, client.roles)]
    else ClientEdits(existing.value, client)
  }

  function ClientPhase(current: seq<Client>, clients: seq<Client>): seq<Command> {
    if clients == [] then []
    else ClientPhase(current, clients[..|clients| - 1]) + ClientCommands(current, clients[|clients| - 1])
  }

  function MemberCommands(current: seq<Group>, group: Group, gone: set<string>): seq<Command> {
    var existing := FindGroup(current, group.name);
    if existing.None? then RefCommands(AddGroupClient, group.name, Outside(group.clients, {}))
    else MemberEdits(existing.value, group, gone)
  }

  function MemberPhase(current: seq<Group>, groups: seq<Group>, gone: set<string>): seq<Command> {
    if groups == [] then []
    else MemberPhase(current, groups[..|groups| - 1], gone) + MemberCommands(current, groups[|groups| - 1], gone)
  }

  /* The names of the current objects that the desired document does not have. */
  function Gone(current: seq<string>, desired: seq<string>): (gone: seq<string>)
    ensures forall name :: name in gone <==> name in current && name !in desired
  {
    if current == [] then []
    else
      var n := |current| - 1;
      Gone(current[..n], desired) + if current[n] in desired then [] else [current[n]]
  }

  function Deletion(kind: ObjectKind, name: string): Command
    requires kind in {ClientObject, GroupObject, RoleObject}
  {
    match kind
    case ClientObject => DeleteClient(name)
    case GroupObject => DeleteGroup(name)
    case RoleObject => DeleteRole(name)
  }

  function Deletions(kind: ObjectKind, names: seq<string>): seq<Command>
    requires kind in {ClientObject, GroupObject, RoleObject}
  {
    if names == [] then []
    else Deletions(kind, names[..|names| - 1]) + [Deletion(kind, names[|names| - 1])]
  }

  lemma GoneSnoc(current: seq<string>, name: string, desired: seq<string>)
    ensures Gone(current + [name], desired)
         == if name in desired then Gone(current, desired) else Gone(current, desired) + [name]
  {
    assert (current + [name])[..|current|] == current;
  }

  lemma DeletionsSnoc(kind: ObjectKind, names: seq<string>, name: string)
    requires kind in {ClientObject, GroupObject, RoleObject}
    ensures Deletions(kind, names + [name]) == Deletions(kind, names) + [Deletion(kind, name)]
  {
    assert (names + [name])[..|names|] == names;
  }

  lemma NoDeletions(kind: ObjectKind, desired: seq<string>)
    requires kind in {ClientObject, GroupObject, RoleObject}
    ensures Deletions(kind, Gone([], desired)) == []
  {
  }

  function GoneClients(current: Document, desired: Document): seq<string> {
    Gone(ClientNames(current.clients), ClientNames(desired.clients))
  }

  function GoneGroups(current: Document, desired: Document): seq<string> {
    Gone(GroupNames(current.groups), GroupNames(desired.groups))
  }

  function GoneRoles(current: Document, desired: Document): seq<string> {
    Gone(RoleNames(current.roles), RoleNames(desired.roles))
  }

  /* Roles, groups, clients and memberships are built up before anything is deleted. */
  function BuildUp(current: Document, desired: Document): seq<Command> {
    RolePhase(current.roles, desired.roles)
    + GroupPhase(current.groups, desired.groups)
    + ClientPhase(current.clients, desired.clients)
    + MemberPhase(current.groups, desired.groups, set name | name in GoneClients(current, desired))
  }

  function CleanUp(current: Document, desired: Document): seq<Command> {
    Deletions(ClientObject, GoneClients(current, desired))
    + Deletions(GroupObject, GoneGroups(current, desired))
    + Deletions(RoleObject, GoneRoles(current, desired))
  }

  function Settings(current: Document, desired: Document): seq<Command> {
    (if current.defaults != desired.defaults then [SetDefaultAccess(desired.defaults)] else [])
    + (if current.anonymous != desired.anonymous then [SetAnonymousGroup(desired.anonymous)] else [])
  }

  function PlanCommands(current: Document, desired: Document): seq<Command> {
    BuildUp(current, desired) + CleanUp(current, desired) + Settings(current, desired)
  }

  // ---------------------------------------------------------------- the planner

  lemma RoleNamesStep(roles: seq<Role>, i: nat)
    requires i < |roles|
    ensures RoleNames(roles[..i + 1]) == RoleNames(roles[..i]) + [roles[i].name]
  {
  }

  lemma RoleNamed(roles: seq<Role>, role: Role)
    requires role in roles
    ensures role.name in RoleNames(roles)
  {
    var i :| 0 <= i < |roles| && roles[i] == role;
    assert RoleNames(roles)[i] == role.name;
  }

  lemma GroupNamesStep(groups: seq<Group>, i: nat)
    requires i < |groups|
    ensures GroupNames(groups[..i + 1]) == GroupNames(groups[..i]) + [groups[i].name]
  {
  }

  lemma GroupNamed(groups: seq<Group>, group: Group)
    requires group in groups
    ensures group.name in GroupNames(groups)
  {
    var i :| 0 <= i < |groups| && groups[i] == group;
    assert GroupNames(groups)[i] == group.name;
  }

  lemma ClientNamesStep(clients: seq<Client>, i: nat)
    requires i < |clients|
    ensures ClientNames(clients[..i + 1]) == ClientNames(clients[..i]) + [clients[i].name]
  {
  }

  lemma ClientNamed(clients: seq<Client>, client: Client)
    requires client in clients
    ensures client.name in ClientNames(clients)
  {
    var i :| 0 <= i < |clients| && clients[i] == client;
    assert ClientNames(clients)[i] == client.name;
  }

  method PlanRoles(current: Document, desired: Document) returns (changes: seq<Change>)
    ensures Commands(changes) == RolePhase(current.roles, desired.roles)
    ensures Settles(changes, RoleObject, RoleNames(current.roles), RoleNames(desired.roles))
  {
    hide RoleEdits, Commands, Settles, Fits, Concern, RoleNames;
    changes := [];
    ghost var had := RoleNames(current.roles);
    NoCommands();
    NothingSettles(RoleObject, had);
    assert RoleNames(desired.roles[..0]) == [];
    for i := 0 to |desired.roles|
      invariant Commands(changes) == RolePhase(current.roles, desired.roles[..i])
      invariant Settles(changes, RoleObject, had, RoleNames(desired.roles[..i]))
    {
      ghost var wants := RoleNames(desired.roles[..i]);
      RoleNamesStep(desired.roles, i);
      assert desired.roles[..i + 1][..i] == desired.roles[..i];
      var role := desired.roles[i];
      var existing := FindRole(current.roles, role.name);
      if existing.None? {
        var change := Change(RoleObject, role.name, Create, [CreateRole(role.name, role.texts, role.acls)]);
        CommandsSnoc(changes, change);
        CreationSettles(changes, CreateRole(role.name, role.texts, role.acls), RoleObject, had, wants, role.name);
        changes := changes + [change];
      } else {
        var updates := RoleUpdates(existing.value, role);
        CommandsConcat(changes, updates);
        RoleNamed(current.roles, existing.value);
        UpdatesSettle(changes, updates, RoleObject, had, wants, role.name);
        changes := changes + updates;
      }
    }
    assert desired.roles[..|desired.roles|] == desired.roles;
  }

  method PlanGroups(current: Document, desired: Document) returns (changes: seq<Change>)
    ensures Commands(changes) == GroupPhase(current.groups, desired.groups)
    ensures Settles(changes, GroupObject, GroupNames(current.groups), GroupNames(desired.groups))
  {
    hide GroupEdits, Commands, Settles, Fits, Concern, GroupNames;
    changes := [];
    ghost var had := GroupNames(current.groups);
    NoCommands();
    NothingSettles(GroupObject, had);
    assert GroupNames(desired.groups[..0]) == [];
    for i := 0 to |desired.groups|
      invariant Commands(changes) == GroupPhase(current.groups, desired.groups[..i])
      invariant Settles(changes, GroupObject, had, GroupNames(desired.groups[..i]))
    {
      ghost var wants := GroupNames(desired.groups[..i]);
      GroupNamesStep(desired.groups, i);
      assert desired.groups[..i + 1][..i] == desired.groups[..i];
      var group := desired.groups[i];
      var existing := FindGroup(current.groups, group.name);
      if existing.None? {
        var change := Change(GroupObject, group.name, Create, [CreateGroup(group.name, group.texts, group.roles)]);
        CommandsSnoc(changes, change);
        CreationSettles(changes, CreateGroup(group.name, group.texts, group.roles), GroupObject, had, wants, group.name);
        changes := changes + [change];
      } else {
        var updates := GroupUpdates(existing.value, group);
        CommandsConcat(changes, updates);
        GroupNamed(current.groups, existing.value);
        UpdatesSettle(changes, updates, GroupObject, had, wants, group.name);
        changes := changes + updates;
      }
    }
    assert desired.groups[..|desired.groups|] == desired.groups;
  }

  method PlanClients(current: Document, desired: Document) returns (changes: seq<Change>)
    ensures Commands(changes) == ClientPhase(current.clients, desired.clients)
    ensures Settles(changes, ClientObject, ClientNames(current.clients), ClientNames(desired.clients))
  {
    hide ClientEdits, Commands, Settles, Fits, Concern, ClientNames;
    changes := [];
    ghost var had := ClientNames(current.clients);
    NoCommands();
    NothingSettles(ClientObject, had);
    assert ClientNames(desired.clients[..0]) == [];
    for i := 0 to |desired.clients|
      invariant Commands(changes) == ClientPhase(current.clients, desired.clients[..i])
      invariant Settles(changes, ClientObject, had, ClientNames(desired.clients[..i]))
    {
      ghost var wants := ClientNames(desired.clients[..i]);
      ClientNamesStep(desired.clients, i);
      assert desired.clients[..i + 1][..i] == desired.clients[..i];
      var client := desired.clients[i];
      var existing := FindClient(current.clients, client.name);
      if existing.None? {
        var create := CreateClient(client.name, client.texts, client.clientId, client.password, client.roles);
        var change := Change(ClientObject, client.name, Create, [create]);
        CommandsSnoc(changes, change);
        CreationSettles(changes, create, ClientObject, had, wants, client.name);
        changes := changes + [change];
      } else {
        var updates := ClientUpdates(existing.value, client);
        CommandsConcat(changes, updates);
        ClientNamed(current.clients, existing.value);
        UpdatesSettle(changes, updates, ClientObject, had, wants, client.name);
        changes := changes + updates;
      }
    }
    assert desired.clients[..|desired.clients|] == desired.clients;
  }

  method PlanMembers(current: Document, desired: Document) returns (changes: seq<Change>)
    ensures Commands(changes)
         == MemberPhase(current.groups, desired.groups, set name | name in GoneClients(current, desired))
    ensures Joins(changes, GroupNames(current.groups), GroupNames(desired.groups))
  {
    hide MemberEdits, Gone, RefCommands, Outside, Commands, Fits, OnlyJoins;
    var gone := set name | name in GoneClients(current, desired);
    changes := [];
    NoCommands();
    for i := 0 to |desired.groups|
      invariant Commands(changes) == MemberPhase(current.groups, desired.groups[..i], gone)
      invariant Joins(changes, GroupNames(current.groups), GroupNames(desired.groups))
    {
      assert GroupNames(desired.groups)[i] == desired.groups[i].name;
      assert desired.groups[..i + 1][..i] == desired.groups[..i];
      var group := desired.groups[i];
      var existing := FindGroup(current.groups, group.name);
      var updates;
      if existing.None? {
        updates := RefChanges(GroupObject, AddGroupClient, group.name, group.clients, {});
      } else {
        updates := GroupMembershipUpdates(existing.value, group, gone);
        GroupNamed(current.groups, existing.value);
      }
      CommandsConcat(changes, updates);
      changes := changes + updates;
    }
    assert desired.groups[..|desired.groups|] == desired.groups;
  }

  lemma ClearsStep(changes: seq<Change>, change: Change, kind: ObjectKind, had: seq<string>, wants: seq<string>)
    requires Clears(changes, kind, had, wants)
    requires Fits(change) && change.kind == kind && change.action == Delete && change.name !in wants
    ensures Clears(changes + [change], kind, had + [change.name], wants)
  {
    hide Fits;
    var all := changes + [change];
    forall name | name in had + [change.name] && name !in wants
      ensures Does(all, kind, name, Delete)
    {
      if name == change.name {
        assert change in all;
      } else {
        assert Does(changes, kind, name, Delete);
        var other :| other in changes && other.kind == kind && other.name == name && other.action == Delete;
        assert other in all;
      }
    }
  }

  lemma DeletionFits(kind: ObjectKind, name: string)
    requires kind in {ClientObject, GroupObject, RoleObject}
    ensures Fits(Change(kind, name, Delete, [Deletion(kind, name)]))
  {
  }

  method PlanDeletions(kind: ObjectKind, current: seq<string>, desired: seq<string>) returns (changes: seq<Change>)
    requires kind in {ClientObject, GroupObject, RoleObject}
    ensures Commands(changes) == Deletions(kind, Gone(current, desired))
    ensures Clears(changes, kind, current, desired)
  {
    hide Commands, Deletions, Deletion, Gone;
    changes := [];
    NoCommands();
    NoDeletions(kind, desired);
    assert current[..0] == [];
    for i := 0 to |current|
      invariant Commands(changes) == Deletions(kind, Gone(current[..i], desired))
      invariant Clears(changes, kind, current[..i], desired)
    {
      ghost var before := changes;
      PrefixStep(current, i);
      GoneSnoc(current[..i], current[i], desired);
      if current[i] !in desired {
        var change := Change(kind, current[i], Delete, [Deletion(kind, current[i])]);
        CommandsSnoc(changes, change);
        DeletionsSnoc(kind, Gone(current[..i], desired), current[i]);
        DeletionFits(kind, current[i]);
        changes := changes + [change];
        ClearsStep(before, change, kind, current[..i], desired);
      }
    }
    assert current[..|current|] == current;
  }

  /* The names of the objects of a kind. The two settings are there in every document. */
  function ObjectNames(doc: Document, kind: ObjectKind): seq<string> {
    match kind
    case ClientObject => ClientNames(doc.clients)
    case GroupObject => GroupNames(doc.groups)
    case RoleObject => RoleNames(doc.roles)
    case DefaultAccessObject => [DEFAULT_ACCESS]
    case AnonymousGroupObject => [ANONYMOUS_GROUP]
  }

  /* What is created is new, what is deleted is gone, and what is updated stays. Clients join a new group by updates. */
  predicate Proper(change: Change, had: seq<string>, wants: seq<string>) {
    match change.action
    case Create => change.name !in had && change.name in wants
    case Update => change.name in wants && (change.name in had || (change.kind == GroupObject && OnlyJoins(change)))
    case Delete => change.name in had && change.name !in wants
  }

  ghost predicate Suits(changes: seq<Change>, current: Document, desired: Document) {
    forall change :: change in changes ==>
      Fits(change) && Proper(change, ObjectNames(current, change.kind), ObjectNames(desired, change.kind))
  }

  /* The objects created and deleted are all the new ones and all that are gone. */
  ghost predicate Exact(plan: seq<Change>, kind: ObjectKind, had: seq<string>, wants: seq<string>) {
    forall name ::
      && (Does(plan, kind, name, Create) <==> name in wants && name !in had)
      && (Does(plan, kind, name, Delete) <==> name in had && name !in wants)
  }

  lemma DoesWithin(part: seq<Change>, plan: seq<Change>, kind: ObjectKind, name: string, action: Action)
    requires forall change :: change in part ==> change in plan
    requires Does(part, kind, name, action)
    ensures Does(plan, kind, name, action)
  {
    var change :| change in part && change.kind == kind && change.name == name && change.action == action;
    assert change in plan;
  }

  lemma SuitsExactly(built: seq<Change>, cleared: seq<Change>, plan: seq<Change>, kind: ObjectKind, current: Document,
                     desired: Document)
    requires Suits(plan, current, desired)
    requires forall change :: change in built || change in cleared ==> change in plan
    requires Settles(built, kind, ObjectNames(current, kind), ObjectNames(desired, kind))
    requires Clears(cleared, kind, ObjectNames(current, kind), ObjectNames(desired, kind))
    ensures Exact(plan, kind, ObjectNames(current, kind), ObjectNames(desired, kind))
  {
    hide Fits, OnlyJoins, ObjectNames;
    var had, wants := ObjectNames(current, kind), ObjectNames(desired, kind);
    forall name
      ensures Does(plan, kind, name, Create) <==> name in wants && name !in had
      ensures Does(plan, kind, name, Delete) <==> name in had && name !in wants
    {
      if name in wants && name !in had {
        DoesWithin(built, plan, kind, name, Create);
      }
      if name in had && name !in wants {
        DoesWithin(cleared, plan, kind, name, Delete);
      }
    }
  }

  /* The two changes of settings. */
  method PlanSettings(current: Document, desired: Document) returns (changes: seq<Change>)
    ensures Commands(changes) == Settings(current, desired)
    ensures Suits(changes, current, desired)
    ensures forall change :: change in changes ==> change.kind in {DefaultAccessObject, AnonymousGroupObject}
    ensures Does(changes, DefaultAccessObject, DEFAULT_ACCESS, Update) <==> current.defaults != desired.defaults
    ensures Does(changes, AnonymousGroupObject, ANONYMOUS_GROUP, Update) <==> current.anonymous != desired.anonymous
  {
    hide Commands, Fits;
    changes := [];
    NoCommands();
    if current.defaults != desired.defaults {
      var change := Change(DefaultAccessObject, DEFAULT_ACCESS, Update, [SetDefaultAccess(desired.defaults)]);
      CommandsSnoc(changes, change);
      OneFits(SetDefaultAccess(desired.defaults));
      changes := changes + [change];
      assert change in changes;
    }
    if current.anonymous != desired.anonymous {
      var change := Change(AnonymousGroupObject, ANONYMOUS_GROUP, Update, [SetAnonymousGroup(desired.anonymous)]);
      ghost var before := changes;
      CommandsSnoc(changes, change);
      OneFits(SetAnonymousGroup(desired.anonymous));
      changes := changes + [change];
      assert change in changes;
      assert forall other :: other in before ==> other in changes;
    }
  }

  lemma PlanSuits(roles: seq<Change>, groups: seq<Change>, clients: seq<Change>, members: seq<Change>,
                  goneClients: seq<Change>, goneGroups: seq<Change>, goneRoles: seq<Change>, settings: seq<Change>,
                  plan: seq<Change>, current: Document, desired: Document)
    requires plan == roles + groups + clients + members + (goneClients + goneGroups + goneRoles) + settings
    requires Settles(roles, RoleObject, ObjectNames(current, RoleObject), ObjectNames(desired, RoleObject))
    requires Settles(groups, GroupObject, ObjectNames(current, GroupObject), ObjectNames(desired, GroupObject))
    requires Settles(clients, ClientObject, ObjectNames(current, ClientObject), ObjectNames(desired, ClientObject))
    requires Joins(members, ObjectNames(current, GroupObject), ObjectNames(desired, GroupObject))
    requires Clears(goneClients, ClientObject, ObjectNames(current, ClientObject), ObjectNames(desired, ClientObject))
    requires Clears(goneGroups, GroupObject, ObjectNames(current, GroupObject), ObjectNames(desired, GroupObject))
    requires Clears(goneRoles, RoleObject, ObjectNames(current, RoleObject), ObjectNames(desired, RoleObject))
    requires Suits(settings, current, desired)
    requires forall change :: change in settings ==> change.kind in {DefaultAccessObject, AnonymousGroupObject}
    ensures Suits(plan, current, desired)
    ensures forall kind :: Exact(plan, kind, ObjectNames(current, kind), ObjectNames(desired, kind))
    ensures forall kind, name, action :: kind in {DefaultAccessObject, AnonymousGroupObject} ==>
              (Does(plan, kind, name, action) <==> Does(settings, kind, name, action))
  {
    hide Fits, OnlyJoins, ObjectNames, Exact;
    forall change | change in plan
      ensures Fits(change) && Proper(change, ObjectNames(current, change.kind), ObjectNames(desired, change.kind))
      ensures change.kind in {DefaultAccessObject, AnonymousGroupObject} ==> change in settings
    {
    }
    SuitsExactly(roles, goneRoles, plan, RoleObject, current, desired);
    SuitsExactly(groups, goneGroups, plan, GroupObject, current, desired);
    SuitsExactly(clients, goneClients, plan, ClientObject, current, desired);
    SettingsExact(plan, DefaultAccessObject, current, desired);
    SettingsExact(plan, AnonymousGroupObject, current, desired);
    forall kind
      ensures Exact(plan, kind, ObjectNames(current, kind), ObjectNames(desired, kind))
    {
      match kind
      case RoleObject => case GroupObject => case ClientObject =>
      case DefaultAccessObject => case AnonymousGroupObject =>
    }
  }

  lemma SettingsExact(plan: seq<Change>, kind: ObjectKind, current: Document, desired: Document)
    requires Suits(plan, current, desired)
    requires kind in {DefaultAccessObject, AnonymousGroupObject}
    ensures Exact(plan, kind, ObjectNames(current, kind), ObjectNames(desired, kind))
  {
    hide Fits, OnlyJoins;
  }

  method BuildPlan(current: Document, desired: Document) returns (plan: seq<Change>)
    ensures Commands(plan) == PlanCommands(current, desired)
    ensures Suits(plan, current, desired)
    ensures forall kind :: Exact(plan, kind, ObjectNames(current, kind), ObjectNames(desired, kind))
    ensures Does(plan, DefaultAccessObject, DEFAULT_ACCESS, Update) <==> current.defaults != desired.defaults
    ensures Does(plan, AnonymousGroupObject, ANONYMOUS_GROUP, Update) <==> current.anonymous != desired.anonymous
  {
    hide RolePhase, GroupPhase, ClientPhase, MemberPhase, Deletions, Gone, Commands;
    hide Fits, OnlyJoins, Settles, Joins, Clears, Suits, Exact, Does;
    var roles := PlanRoles(current, desired);
    var groups := PlanGroups(current, desired);
    var clients := PlanClients(current, desired);
    var members := PlanMembers(current, desired);
    CommandsConcat(roles, groups);
    CommandsConcat(roles + groups, clients);
    CommandsConcat(roles + groups + clients, members);
    plan := roles + groups + clients + members;

    var goneClients := PlanDeletions(ClientObject, ClientNames(current.clients), ClientNames(desired.clients));
    var goneGroups := PlanDeletions(GroupObject, GroupNames(current.groups), GroupNames(desired.groups));
    var goneRoles := PlanDeletions(RoleObject, RoleNames(current.roles), RoleNames(desired.roles));
    CommandsConcat(goneClients, goneGroups);
    CommandsConcat(goneClients + goneGroups, goneRoles);
    var cleanUp := goneClients + goneGroups + goneRoles;
    CommandsConcat(plan, cleanUp);
    plan := plan + cleanUp;

    var settings := PlanSettings(current, desired);
    CommandsConcat(plan, settings);
    plan := plan + settings;
    PlanSuits(roles, groups, clients, members, goneClients, goneGroups, goneRoles, settings, plan, current, desired);
  }
}
