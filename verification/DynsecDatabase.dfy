/**
 The database of the dynamic security plugin, as the planner relies on it: adding an access
 entry replaces the entry with the same type and topic, a membership is a set of
 (group, client) pairs that does not need the client to exist, and deleting an object removes
 every reference to it. A command that names a missing object is refused and changes nothing.

 An empty text puts no field into a command (internal/dynsec/protocol.go), and a field that a command
 does not carry leaves what is held alone. In particular `setAnonymousGroup` without a group changes
 nothing; whether it is answered with an error is not modelled.
 */
module DynsecDatabase {
  import opened Options
  import opened DynsecModel
  import opened DynsecPlan

  datatype Entry = Entry(allow: bool, priority: int)

  type Entries = map<(string, string), Entry>

  /* The roles a client or a group holds, with their priorities. */
  type Held = map<string, int>

  datatype RoleState = RoleState(texts: Texts, entries: Entries)

  datatype GroupState = GroupState(texts: Texts, roles: Held)

  datatype ClientState = ClientState(texts: Texts, clientId: string, password: string, roles: Held, disabled: bool)

  datatype Database = Database(
    roles: map<string, RoleState>,
    groups: map<string, GroupState>,
    clients: map<string, ClientState>,
    members: set<(string, string)>,
    defaults: DefaultAccess,
    anonymous: string)

  function PutEntry(entries: Entries, entry: ACL): Entries {
    entries[Key(entry) := Entry(entry.allow, entry.priority)]
  }

  function PutEntries(entries: Entries, added: seq<ACL>): Entries {
    if added == [] then entries
    else PutEntry(PutEntries(entries, added[..|added| - 1]), added[|added| - 1])
  }

  function PutRefs(held: Held, refs: seq<Ref>): (after: Held)
    ensures after.Keys == held.Keys + Names(refs)
  {
    if refs == [] then held
    else
      var n := |refs| - 1;
      assert refs == refs[..n] + [refs[n]];
      PutRefs(held, refs[..n])[refs[n].name := refs[n].priority]
  }

  /* The field of a command that carries a text. */
  function Field(text: string): Option<string> {
    if text == "" then None else Some(text)
  }

  function Put(held: string, field: Option<string>): string {
    if field.None? then held else field.value
  }

  function PutTexts(held: Texts, sent: Texts): Texts {
    Texts(Put(held.name, Field(sent.name)), Put(held.description, Field(sent.description)))
  }

  function RoleOf(role: Role): RoleState {
    RoleState(role.texts, PutEntries(map[], role.acls))
  }

  function Pairs(group: string, clients: set<string>): set<(string, string)> {
    set client | client in clients :: (group, client)
  }

  // ---------------------------------------------------------------- commands

  predicate FindsRefs(db: Database, op: RefOp, owner: string, names: set<string>) {
    match op
    case AddGroupRole => owner in db.groups && names <= db.roles.Keys
    case RemoveGroupRole => owner in db.groups && names <= db.roles.Keys
    case AddGroupClient => owner in db.groups
    case RemoveGroupClient => owner in db.groups
    case AddClientRole => owner in db.clients && names <= db.roles.Keys
    case RemoveClientRole => owner in db.clients && names <= db.roles.Keys
  }

  /* The roles and groups a command names exist, and so does the client it changes; what a
     command creates does not exist yet. */
  predicate Finds(db: Database, command: Command) {
    match command
    case CreateRole(role, _, _) => role !in db.roles
    case ModifyRole(role, _) => role in db.roles
    case AddRoleACL(role, _) => role in db.roles
    case RemoveRoleACL(role, _, _) => role in db.roles
    case DeleteRole(role) => role in db.roles
    case CreateGroup(group, _, roles) => group !in db.groups && Names(roles) <= db.roles.Keys
    case ModifyGroup(group, _) => group in db.groups
    case DeleteGroup(group) => group in db.groups
    case CreateClient(client, _, _, _, roles) => client !in db.clients && Names(roles) <= db.roles.Keys
    case ModifyClient(client, _, _) => client in db.clients
    case SetClientPassword(client, _) => client in db.clients
    case EnableClient(client) => client in db.clients
    case DisableClient(client) => client in db.clients
    case DeleteClient(client) => client in db.clients
    case Refer(op, owner, name, _) => FindsRefs(db, op, owner, {name})
    case SetDefaultAccess(_) => true
    case SetAnonymousGroup(group) => group == "" || group in db.groups
  }

  /* What adding or removing references changes. */
  function Referred(db: Database, op: RefOp, owner: string, refs: seq<Ref>): Database
    requires FindsRefs(db, op, owner, {})
  {
    match op
    case AddGroupRole => db.(groups := db.groups[owner := db.groups[owner].(roles := PutRefs(db.groups[owner].roles, refs))])
    case RemoveGroupRole => db.(groups := db.groups[owner := db.groups[owner].(roles := db.groups[owner].roles - Names(refs))])
    case AddGroupClient => db.(members := db.members + Pairs(owner, Names(refs)))
    case RemoveGroupClient => db.(members := db.members - Pairs(owner, Names(refs)))
    case AddClientRole => db.(clients := db.clients[owner := db.clients[owner].(roles := PutRefs(db.clients[owner].roles, refs))])
    case RemoveClientRole => db.(clients := db.clients[owner := db.clients[owner].(roles := db.clients[owner].roles - Names(refs))])
  }

  function WithRole(db: Database, role: string, state: RoleState): Database {
    db.(roles := db.roles[role := state])
  }

  function WithGroup(db: Database, group: string, state: GroupState): Database {
    db.(groups := db.groups[group := state])
  }

  function WithClient(db: Database, client: string, state: ClientState): Database {
    db.(clients := db.clients[client := state])
  }

  function Effect(db: Database, command: Command): Database
    requires Finds(db, command)
  {
    match command
    case CreateRole(role, texts, acls) => WithRole(db, role, RoleState(texts, PutEntries(map[], acls)))
    case ModifyRole(role, texts) => WithRole(db, role, db.roles[role].(texts := PutTexts(db.roles[role].texts, texts)))
    case AddRoleACL(role, entry) => WithRole(db, role, db.roles[role].(entries := PutEntry(db.roles[role].entries, entry)))
    case RemoveRoleACL(role, kind, topic) =>
      WithRole(db, role, db.roles[role].(entries := db.roles[role].entries - {(kind, topic)}))
    case DeleteRole(role) =>
      db.(roles := db.roles - {role},
          groups := (map g | g in db.groups :: db.groups[g].(roles := db.groups[g].roles - {role})),
          clients := (map c | c in db.clients :: db.clients[c].(roles := db.clients[c].roles - {role})))
    case CreateGroup(group, texts, roles) => WithGroup(db, group, GroupState(texts, PutRefs(map[], roles)))
    case ModifyGroup(group, texts) => WithGroup(db, group, db.groups[group].(texts := PutTexts(db.groups[group].texts, texts)))
    case DeleteGroup(group) =>
      db.(groups := db.groups - {group},
          members := (set pair | pair in db.members && pair.0 != group),
          anonymous := if db.anonymous == group then "" else db.anonymous)
    case CreateClient(client, texts, clientId, password, roles) =>
      WithClient(db, client, ClientState(texts, clientId, password, PutRefs(map[], roles), false))
    case ModifyClient(client, texts, clientId) =>
      var state := db.clients[client];
      WithClient(db, client, state.(texts := PutTexts(state.texts, texts), clientId := Put(state.clientId, Field(clientId))))
    case SetClientPassword(client, password) => WithClient(db, client, db.clients[client].(password := password))
    case EnableClient(client) => WithClient(db, client, db.clients[client].(disabled := false))
    case DisableClient(client) => WithClient(db, client, db.clients[client].(disabled := true))
    case DeleteClient(client) =>
      db.(clients := db.clients - {client}, members := (set pair | pair in db.members && pair.1 != client))
    case Refer(op, owner, name, priority) =>
      Referred(db, op, owner, [Ref(name, if priority.Some? then priority.value else 0)])
    case SetDefaultAccess(access) => db.(defaults := access)
    case SetAnonymousGroup(group) => db.(anonymous := Put(db.anonymous, Field(group)))
  }

  function Step(db: Database, command: Command): Database {
    if Finds(db, command) then Effect(db, command) else db
  }

  function Run(db: Database, commands: seq<Command>): Database {
    if commands == [] then db
    else Step(Run(db, commands[..|commands| - 1]), commands[|commands| - 1])
  }

  predicate Unreferenced(db: Database, role: string) {
    && (forall g :: g in db.groups ==> role !in db.groups[g].roles)
    && (forall c :: c in db.clients ==> role !in db.clients[c].roles)
  }

  /* A command that is not refused, and that deletes no role still referred to. */
  predicate Safe(db: Database, command: Command) {
    Finds(db, command) && (command.DeleteRole? ==> Unreferenced(db, command.role))
  }

  /* Every command of a run is safe where it is reached. */
  predicate AllSafe(db: Database, commands: seq<Command>) {
    commands == [] ||
    var n := |commands| - 1;
    AllSafe(db, commands[..n]) && Safe(Run(db, commands[..n]), commands[n])
  }

  // ---------------------------------------------------------------- soundness of a database

  /* Every role held, every group with members and the anonymous group exist. */
  predicate Sound(db: Database) {
    && (forall g :: g in db.groups ==> db.groups[g].roles.Keys <= db.roles.Keys)
    && (forall c :: c in db.clients ==> db.clients[c].roles.Keys <= db.roles.Keys)
    && (forall pair :: pair in db.members ==> pair.0 in db.groups)
    && (db.anonymous == "" || db.anonymous in db.groups)
  }

  lemma StepKeepsSound(db: Database, command: Command)
    requires Sound(db)
    ensures Sound(Step(db, command))
  {
    hide PutRefs, PutEntries, Referred;
    if Finds(db, command) && command.Refer? {
      ReferredKeepsSound(db, command.op, command.owner,
                         Ref(command.name, if command.priority.Some? then command.priority.value else 0));
    }
  }

  lemma ReferredKeepsSound(db: Database, op: RefOp, owner: string, ref: Ref)
    requires Sound(db) && FindsRefs(db, op, owner, {ref.name})
    ensures Sound(Referred(db, op, owner, [ref]))
  {
    hide PutRefs;
    assert Names([ref]) == {ref.name};
  }

  lemma {:induction false} RunKeepsSound(db: Database, commands: seq<Command>)
    requires Sound(db)
    ensures Sound(Run(db, commands))
  {
    hide Step, Sound;
    if commands != [] {
      var n := |commands| - 1;
      RunKeepsSound(db, commands[..n]);
      StepKeepsSound(Run(db, commands[..n]), commands[n]);
    }
  }

  // ---------------------------------------------------------------- running in pieces

  lemma RunOne(db: Database, command: Command)
    ensures Run(db, [command]) == Step(db, command)
    ensures AllSafe(db, [command]) == Safe(db, command)
  {
    hide Step, Safe;
    assert [command][..0] == [];
  }

  lemma {:induction false} RunConcat(db: Database, a: seq<Command>, b: seq<Command>)
    ensures Run(db, a + b) == Run(Run(db, a), b)
    ensures AllSafe(db, a + b) == (AllSafe(db, a) && AllSafe(Run(db, a), b))
  {
    hide Step, Safe;
    if b == [] {
      assert a + b == a;
    } else {
      var n := |b| - 1;
      RunConcat(db, a, b[..n]);
      assert (a + b)[..|a + b| - 1] == a + b[..n];
    }
  }

  /* What `AllSafe` says of each command and of each state on the way. */
  lemma {:induction false} SafeThroughout(db: Database, commands: seq<Command>, i: nat)
    requires AllSafe(db, commands) && i < |commands|
    ensures Safe(Run(db, commands[..i]), commands[i])
  {
    hide Step, Safe;
    var n := |commands| - 1;
    if i < n {
      SafeThroughout(db, commands[..n], i);
      assert commands[..n][..i] == commands[..i];
    }
  }

  // ---------------------------------------------------------------- documents and databases

  predicate RolesMatch(roles: seq<Role>, db: Database) {
    && (set name | name in RoleNames(roles)) == db.roles.Keys
    && forall r :: r in roles ==> DistinctKeys(r.acls) && r.name in db.roles && db.roles[r.name] == RoleOf(r)
  }

  /* The clients of one group. */
  function MembersOf(db: Database, group: string): set<string> {
    set pair | pair in db.members && pair.0 == group :: pair.1
  }

  predicate GroupMatches(group: Group, db: Database) {
    && DistinctRefs(group.roles) && DistinctRefs(group.clients)
    && group.name in db.groups
    && db.groups[group.name] == GroupState(group.texts, PutRefs(map[], group.roles))
    && Names(group.clients) == MembersOf(db, group.name)
  }

  predicate GroupsMatch(groups: seq<Group>, db: Database) {
    && (set name | name in GroupNames(groups)) == db.groups.Keys
    && forall g :: g in groups ==> GroupMatches(g, db)
  }

  /* The groups of one client. */
  function GroupsOf(db: Database, client: string): set<string> {
    set pair | pair in db.members && pair.1 == client :: pair.0
  }

  /* What a document says of a client, its groups apart. A password is never read back. */
  predicate ClientHeld(client: Client, db: Database) {
    && DistinctRefs(client.roles)
    && client.name in db.clients
    && db.clients[client.name]
       == ClientState(client.texts, client.clientId, db.clients[client.name].password,
                      PutRefs(map[], client.roles), client.disabled)
  }

  predicate ClientsHeld(clients: seq<Client>, db: Database) {
    && (set name | name in ClientNames(clients)) == db.clients.Keys
    && forall c :: c in clients ==> ClientHeld(c, db)
  }

  predicate ClientsMatch(clients: seq<Client>, db: Database) {
    && ClientsHeld(clients, db)
    && forall c :: c in clients ==> DistinctRefs(c.groups) && Names(c.groups) == GroupsOf(db, c.name)
  }

  /* A document read from the plugin: every object once, with what the database holds of it. */
  predicate Represents(doc: Document, db: Database) {
    && Distinct(RoleNames(doc.roles)) && Distinct(GroupNames(doc.groups)) && Distinct(ClientNames(doc.clients))
    && RolesMatch(doc.roles, db) && GroupsMatch(doc.groups, db) && ClientsMatch(doc.clients, db)
    && doc.defaults == db.defaults && doc.anonymous == db.anonymous
  }
}
