/**
 The security database document of the dynamic security plugin (internal/dynsec/model.go):
 its entities, the validation that precedes every change, and the normalisation of the
 two views of a group membership.
 */
module DynsecModel {
  import opened Strings
  import opened Rules
  import opened Options

  datatype ACL = ACL(kind: string, topic: string, allow: bool, priority: int)

  /* `RoleRef`, `GroupRef` and `ClientRef` of the source share this shape. */
  datatype Ref = Ref(name: string, priority: int)

  /* The human readable name and description of an object. */
  datatype Texts = Texts(name: string, description: string)

  datatype Role = Role(name: string, texts: Texts, acls: seq<ACL>)

  datatype Client = Client(
    name: string, texts: Texts, clientId: string, password: string,
    roles: seq<Ref>, groups: seq<Ref>, disabled: bool)

  datatype Group = Group(name: string, texts: Texts, roles: seq<Ref>, clients: seq<Ref>)

  datatype DefaultAccess = DefaultAccess(
    publishSend: bool, publishReceive: bool, subscribe: bool, unsubscribe: bool)

  datatype Document = Document(
    clients: seq<Client>, groups: seq<Group>, roles: seq<Role>,
    defaults: DefaultAccess, anonymous: string)

  const ACL_TYPES := [
    "publishClientSend", "publishClientReceive", "subscribeLiteral",
    "subscribePattern", "unsubscribeLiteral", "unsubscribePattern"]

  // ---------------------------------------------------------------- names and references

  function Names(refs: seq<Ref>): set<string> {
    set ref | ref in refs :: ref.name
  }

  function ClientNames(clients: seq<Client>): (names: seq<string>)
    ensures |names| == |clients|
    ensures forall i :: 0 <= i < |names| ==> names[i] == clients[i].name
  {
    seq(|clients|, i requires 0 <= i < |clients| => clients[i].name)
  }

  function GroupNames(groups: seq<Group>): (names: seq<string>)
    ensures |names| == |groups|
    ensures forall i :: 0 <= i < |names| ==> names[i] == groups[i].name
  {
    seq(|groups|, i requires 0 <= i < |groups| => groups[i].name)
  }

  function RoleNames(roles: seq<Role>): (names: seq<string>)
    ensures |names| == |roles|
    ensures forall i :: 0 <= i < |names| ==> names[i] == roles[i].name
  {
    seq(|roles|, i requires 0 <= i < |roles| => roles[i].name)
  }

  predicate Distinct<T(==)>(s: seq<T>) {
    forall i, j :: 0 <= i < j < |s| ==> s[i] != s[j]
  }

  predicate DistinctRefs(refs: seq<Ref>) {
    forall i, j :: 0 <= i < j < |refs| ==> refs[i].name != refs[j].name
  }

  /* An access entry is identified by its type and topic. */
  function Key(entry: ACL): (string, string) {
    (entry.kind, entry.topic)
  }

  predicate DistinctKeys(entries: seq<ACL>) {
    forall i, j :: 0 <= i < j < |entries| ==> Key(entries[i]) != Key(entries[j])
  }

  // ---------------------------------------------------------------- searches

  function FindClient(clients: seq<Client>, name: string): (found: Option<Client>)
    ensures found.Some? ==> found.value in clients && found.value.name == name
    ensures found.None? ==> name !in ClientNames(clients)
  {
    if clients == [] then None
    else if clients[0].name == name then Some(clients[0])
    else FindClient(clients[1..], name)
  }

  function FindGroup(groups: seq<Group>, name: string): (found: Option<Group>)
    ensures found.Some? ==> found.value in groups && found.value.name == name
    ensures found.None? ==> name !in GroupNames(groups)
  {
    if groups == [] then None
    else if groups[0].name == name then Some(groups[0])
    else FindGroup(groups[1..], name)
  }

  function FindRole(roles: seq<Role>, name: string): (found: Option<Role>)
    ensures found.Some? ==> found.value in roles && found.value.name == name
    ensures found.None? ==> name !in RoleNames(roles)
  {
    if roles == [] then None
    else if roles[0].name == name then Some(roles[0])
    else FindRole(roles[1..], name)
  }

  // ---------------------------------------------------------------- validation

  predicate ValidObjectName(name: string) {
    && TrimSpace(name) != ""
    && forall c :: c in "#+\0\n\r" ==> c !in name
  }

  predicate ValidNames(names: seq<string>) {
    && (forall i :: 0 <= i < |names| ==> ValidObjectName(names[i]))
    && Distinct(names)
  }

  predicate ValidEntry(entry: ACL) {
    entry.kind in ACL_TYPES && TrimSpace(entry.topic) != "" && ValidTopicFilter(entry.topic)
  }

  predicate ValidEntries(entries: seq<ACL>) {
    forall i :: 0 <= i < |entries| ==> ValidEntry(entries[i])
  }

  /* Every object has a name of its own and every reference names an object. */
  predicate ValidDocument(doc: Document) {
    var clients := set name | name in ClientNames(doc.clients);
    var groups := set name | name in GroupNames(doc.groups);
    var roles := set name | name in RoleNames(doc.roles);
    && ValidNames(ClientNames(doc.clients))
    && ValidNames(GroupNames(doc.groups))
    && ValidNames(RoleNames(doc.roles))
    && (forall r :: r in doc.roles ==> ValidEntries(r.acls))
    && (forall c :: c in doc.clients ==> Names(c.roles) <= roles && Names(c.groups) <= groups)
    && (forall g :: g in doc.groups ==> Names(g.roles) <= roles && Names(g.clients) <= clients)
    && (doc.anonymous == "" || doc.anonymous in groups)
  }

  datatype IssueKind = NameIssue | TopicIssue | ValueIssue | ReferenceIssue | DuplicateIssue

  datatype Issue = Issue(kind: IssueKind, subject: string, field: string)

  /* The checks of one object name against the names already seen. */
  method CheckName(name: string, seen: set<string>, field: string) returns (issues: seq<Issue>)
    ensures issues == [] <==> ValidObjectName(name) && name !in seen
  {
    issues := [];
    if TrimSpace(name) == "" {
      return [Issue(NameIssue, name, field)];
    }
    if !ValidObjectName(name) {
      issues := issues + [Issue(NameIssue, name, field)];
    }
    if name in seen {
      issues := issues + [Issue(DuplicateIssue, name, field)];
    }
  }

  method CheckNames(names: seq<string>, field: string) returns (known: set<string>, issues: seq<Issue>)
    ensures issues == [] <==> ValidNames(names)
    ensures issues == [] ==> known == set name | name in names
  {
    hide ValidObjectName;
    known, issues := {}, [];
    for i := 0 to |names|
      invariant issues == [] <==> ValidNames(names[..i])
      invariant issues == [] ==> known == set name | name in names[..i]
    {
      PrefixStep(names, i);
      var found := CheckName(names[i], known, field);
      if issues == [] {
        DistinctSnoc(names[..i], names[i]);
      }
      if TrimSpace(names[i]) != "" {
        known := known + {names[i]};
      }
      NamesStep(names, i);
      issues := issues + found;
    }
    assert names[..|names|] == names;
  }

  lemma DistinctSnoc<T>(s: seq<T>, x: T)
    ensures Distinct(s + [x]) <==> Distinct(s) && x !in s
  {
    if Distinct(s + [x]) {
      forall i, j | 0 <= i < j < |s| ensures s[i] != s[j] {
        assert (s + [x])[i] != (s + [x])[j];
      }
      forall i | 0 <= i < |s| ensures s[i] != x {
        assert (s + [x])[i] != (s + [x])[|s|];
      }
    }
  }

  lemma NamesStep(names: seq<string>, i: nat)
    requires i < |names|
    ensures ValidNames(names[..i + 1]) <==>
            ValidNames(names[..i]) && ValidObjectName(names[i]) && names[i] !in names[..i]
    ensures ValidObjectName(names[i]) ==> TrimSpace(names[i]) != ""
  {
    PrefixStep(names, i);
    DistinctSnoc(names[..i], names[i]);
    var more := names[..i + 1];
    if ValidNames(more) {
      assert ValidObjectName(more[i]);
      forall j | 0 <= j < i ensures ValidObjectName(names[..i][j]) { assert ValidObjectName(more[j]); }
    }
  }

  method CheckEntries(role: string, entries: seq<ACL>) returns (issues: seq<Issue>)
    ensures issues == [] <==> ValidEntries(entries)
  {
    hide ValidTopicFilter;
    issues := [];
    for i := 0 to |entries|
      invariant issues == [] <==> ValidEntries(entries[..i])
    {
      PrefixStep(entries, i);
      var entry := entries[i];
      assert ValidEntries(entries[..i + 1]) <==> ValidEntries(entries[..i]) && ValidEntry(entry) by {
        if ValidEntries(entries[..i + 1]) {
          assert ValidEntry(entries[..i + 1][i]);
          forall j | 0 <= j < i ensures ValidEntry(entries[..i][j]) { assert ValidEntry(entries[..i + 1][j]); }
        }
      }
      if entry.kind !in ACL_TYPES {
        issues := issues + [Issue(ValueIssue, role, "acls")];
      } else if TrimSpace(entry.topic) == "" {
        issues := issues + [Issue(TopicIssue, role, "acls")];
      } else if !ValidTopicFilter(entry.topic) {
        issues := issues + [Issue(TopicIssue, role, "acls")];
      }
    }
    assert entries[..|entries|] == entries;
  }

  method CheckRefs(subject: string, refs: seq<Ref>, known: set<string>, field: string)
    returns (issues: seq<Issue>)
    ensures issues == [] <==> Names(refs) <= known
  {
    issues := [];
    for i := 0 to |refs|
      invariant issues == [] <==> Names(refs[..i]) <= known
    {
      PrefixStep(refs, i);
      assert Names(refs[..i + 1]) == Names(refs[..i]) + {refs[i].name};
      if refs[i].name !in known {
        issues := issues + [Issue(ReferenceIssue, subject, field)];
      }
    }
    assert refs[..|refs|] == refs;
  }

  /* No finding exactly when the document is valid. */
  method Validate(doc: Document) returns (issues: seq<Issue>)
    ensures issues == [] <==> ValidDocument(doc)
  {
    hide ValidEntries, ValidNames, Names;
    var clients, clientIssues := CheckNames(ClientNames(doc.clients), "username");
    var groups, groupIssues := CheckNames(GroupNames(doc.groups), "group_name");
    var roles, roleIssues := CheckNames(RoleNames(doc.roles), "role_name");
    issues := clientIssues + groupIssues + roleIssues;
    for i := 0 to |doc.roles|
      invariant issues == [] <==>
                clientIssues + groupIssues + roleIssues == []
                && forall r :: r in doc.roles[..i] ==> ValidEntries(r.acls)
    {
      PrefixStep(doc.roles, i);
      var found := CheckEntries(doc.roles[i].name, doc.roles[i].acls);
      issues := issues + found;
    }
    ghost var own := issues;
    for i := 0 to |doc.clients|
      invariant issues == [] <==>
                own == [] && forall c :: c in doc.clients[..i] ==> Names(c.roles) <= roles && Names(c.groups) <= groups
    {
      PrefixStep(doc.clients, i);
      var c := doc.clients[i];
      var badRoles := CheckRefs(c.name, c.roles, roles, "roles");
      var badGroups := CheckRefs(c.name, c.groups, groups, "groups");
      issues := issues + badRoles + badGroups;
    }
    own := issues;
    for i := 0 to |doc.groups|
      invariant issues == [] <==>
                own == [] && forall g :: g in doc.groups[..i] ==> Names(g.roles) <= roles && Names(g.clients) <= clients
    {
      PrefixStep(doc.groups, i);
      var g := doc.groups[i];
      var badRoles := CheckRefs(g.name, g.roles, roles, "roles");
      var badClients := CheckRefs(g.name, g.clients, clients, "clients");
      issues := issues + badRoles + badClients;
    }
    if doc.anonymous != "" && doc.anonymous !in groups {
      issues := issues + [Issue(ReferenceIssue, doc.anonymous, "anonymous_group")];
    }
    assert doc.roles[..|doc.roles|] == doc.roles;
    assert doc.clients[..|doc.clients|] == doc.clients;
    assert doc.groups[..|doc.groups|] == doc.groups;
  }

  // ---------------------------------------------------------------- normalisation

  /* The groups that list a client. */
  function GroupsListing(groups: seq<Group>, client: string): set<string> {
    set group | group in groups && client in Names(group.clients) :: group.name
  }

  /* The group lists of the clients say what the groups say, each group once. */
  predicate Normalised(doc: Document) {
    forall c :: c in doc.clients ==>
      DistinctRefs(c.groups) && Names(c.groups) == GroupsListing(doc.groups, c.name)
  }

  function Recorded(members: map<string, set<string>>, client: string): set<string> {
    if client in members then members[client] else {}
  }

  /* One group read into the record of which groups list a client. */
  method RecordGroup(members: map<string, set<string>>, group: Group) returns (more: map<string, set<string>>)
    ensures forall c :: Recorded(more, c)
                     == Recorded(members, c) + if c in Names(group.clients) then {group.name} else {}
  {
    more := members;
    for k := 0 to |group.clients|
      invariant forall c :: Recorded(more, c)
                         == Recorded(members, c) + if c in Names(group.clients[..k]) then {group.name} else {}
    {
      PrefixStep(group.clients, k);
      var user := group.clients[k].name;
      assert Names(group.clients[..k + 1]) == Names(group.clients[..k]) + {user};
      more := more[user := Recorded(more, user) + {group.name}];
    }
    assert group.clients[..|group.clients|] == group.clients;
  }

  lemma GroupsListingSnoc(groups: seq<Group>, group: Group, client: string)
    ensures GroupsListing(groups + [group], client)
         == GroupsListing(groups, client) + if client in Names(group.clients) then {group.name} else {}
  {
    hide Names;
    assert group in groups + [group];
    assert forall g :: g in groups + [group] <==> g in groups || g == group;
  }

  lemma NothingRecorded()
    ensures forall c :: Recorded(map[], c) == GroupsListing([], c)
  {
  }

  method Memberships(groups: seq<Group>) returns (members: map<string, set<string>>)
    ensures forall c :: Recorded(members, c) == GroupsListing(groups, c)
  {
    hide Names, GroupsListing, Recorded;
    members := map[];
    NothingRecorded();
    assert groups[..0] == [];
    for i := 0 to |groups|
      invariant forall c :: Recorded(members, c) == GroupsListing(groups[..i], c)
    {
      PrefixStep(groups, i);
      ghost var before := members;
      members := RecordGroup(members, groups[i]);
      forall c ensures Recorded(members, c) == GroupsListing(groups[..i + 1], c) {
        GroupsListingSnoc(groups[..i], groups[i], c);
      }
    }
    assert groups[..|groups|] == groups;
  }

  /* One reference per name, in the arbitrary order a map is walked in. */
  method RefsTo(names: set<string>) returns (refs: seq<Ref>)
    ensures DistinctRefs(refs) && Names(refs) == names
  {
    refs := [];
    var rest := names;
    while rest != {}
      invariant rest <= names
      invariant DistinctRefs(refs) && Names(refs) == names - rest
    {
      var name :| name in rest;
      assert Names(refs + [Ref(name, 0)]) == Names(refs) + {name};
      refs := refs + [Ref(name, 0)];
      rest := rest - {name};
    }
  }

  /* The groups decide the membership: only the group lists of the clients change, and they
     then agree with the groups. */
  method Normalize(doc: Document) returns (normal: Document)
    ensures Normalised(normal)
    ensures normal == doc.(clients := normal.clients)
    ensures |normal.clients| == |doc.clients|
    ensures forall i :: 0 <= i < |doc.clients| ==>
              normal.clients[i] == doc.clients[i].(groups := normal.clients[i].groups)
  {
    var members := Memberships(doc.groups);
    var clients: seq<Client> := [];
    for i := 0 to |doc.clients|
      invariant |clients| == i
      invariant forall k :: 0 <= k < i ==>
                  && clients[k] == doc.clients[k].(groups := clients[k].groups)
                  && DistinctRefs(clients[k].groups)
                  && Names(clients[k].groups) == GroupsListing(doc.groups, clients[k].name)
    {
      var name := doc.clients[i].name;
      var groups := RefsTo(Recorded(members, name));
      clients := clients + [doc.clients[i].(groups := groups)];
    }
    normal := doc.(clients := clients);
  }

  /* Normalising a valid document keeps it valid. */
  lemma NormalisedIsValid(doc: Document, normal: Document)
    requires ValidDocument(doc) && Normalised(normal)
    requires normal == doc.(clients := normal.clients)
    requires |normal.clients| == |doc.clients|
    requires forall i :: 0 <= i < |doc.clients| ==>
               normal.clients[i] == doc.clients[i].(groups := normal.clients[i].groups)
    ensures ValidDocument(normal)
  {
    hide ValidNames, ValidEntries;
    assert ClientNames(normal.clients) == ClientNames(doc.clients);
    var groups := set name | name in GroupNames(doc.groups);
    forall c | c in normal.clients ensures Names(c.groups) <= groups {
      forall name | name in Names(c.groups) ensures name in groups {
        var group :| group in doc.groups && c.name in Names(group.clients) && group.name == name;
        var i :| 0 <= i < |doc.groups| && doc.groups[i] == group;
        assert GroupNames(doc.groups)[i] == name;
      }
    }
    forall c | c in normal.clients
      ensures Names(c.roles) <= set name | name in RoleNames(doc.roles)
    {
      var i :| 0 <= i < |normal.clients| && normal.clients[i] == c;
      assert doc.clients[i] in doc.clients && doc.clients[i].roles == c.roles;
    }
  }
}
