/**
 The comparison of the desired state with the state the broker reports
 (internal/dynsec/service.go): the loops that fill and empty maps, tied to what agreement of
 two documents means.
 */
module DynsecVerify {
  import opened Strings
  import opened DynsecModel
  import opened DynsecPlan
  import opened DynsecPhases

  /* One finding; the explanation text is not modelled. */
  datatype Difference = Difference(kind: ObjectKind, name: string, field: string)

  // ---------------------------------------------------------------- lists of references

  /* `sameRoles`, `sameGroups` and `sameClients`: the second list may not repeat a name. */
  predicate SameRefs(a: seq<Ref>, b: seq<Ref>) {
    DistinctRefs(b) && Names(a) == Names(b)
  }

  lemma DistinctRefsSnoc(refs: seq<Ref>, ref: Ref)
    ensures DistinctRefs(refs + [ref]) <==> DistinctRefs(refs) && ref.name !in Names(refs)
    ensures Names(refs + [ref]) == Names(refs) + {ref.name}
  {
    var more := refs + [ref];
    if DistinctRefs(more) {
      forall i, j | 0 <= i < j < |refs| ensures refs[i].name != refs[j].name {
        assert more[i].name != more[j].name;
      }
      forall i | 0 <= i < |refs| ensures refs[i].name != ref.name {
        assert more[i].name != more[|refs|].name;
      }
    }
  }

  method CompareRefs(a: seq<Ref>, b: seq<Ref>) returns (same: bool)
    ensures same <==> SameRefs(a, b)
  {
    hide DistinctRefs, Names;
    var left := RefNames(a);
    NoRefNames();
    assert b[..0] == [];
    for i := 0 to |b|
      invariant DistinctRefs(b[..i]) && Names(b[..i]) <= Names(a)
      invariant left == Names(a) - Names(b[..i])
    {
      PrefixStep(b, i);
      DistinctRefsSnoc(b[..i], b[i]);
      if b[i].name !in left {
        WholeRefs(b, i + 1);
        return false;
      }
      left := left - {b[i].name};
    }
    assert b[..|b|] == b;
    return left == {};
  }

  lemma NoRefNames()
    ensures DistinctRefs([]) && Names([]) == {}
  {
  }

  /* A prefix that repeats a name or holds a strange one spoils the whole list. */
  lemma WholeRefs(b: seq<Ref>, i: nat)
    requires i <= |b|
    ensures Names(b[..i]) <= Names(b)
    ensures DistinctRefs(b) ==> DistinctRefs(b[..i])
  {
  }

  method RefNames(refs: seq<Ref>) returns (names: set<string>)
    ensures names == Names(refs)
  {
    names := {};
    for i := 0 to |refs|
      invariant names == Names(refs[..i])
    {
      PrefixStep(refs, i);
      DistinctRefsSnoc(refs[..i], refs[i]);
      names := names + {refs[i].name};
    }
    assert refs[..|refs|] == refs;
  }

  // ---------------------------------------------------------------- lists of access entries

  function AclKey(entry: ACL): string {
    entry.kind + "\0" + entry.topic
  }

  function ByKey(entries: seq<ACL>): (found: map<string, ACL>)
    ensures found.Keys == AclKeys(entries)
  {
    if entries == [] then map[]
    else
      var n := |entries| - 1;
      assert entries == entries[..n] + [entries[n]];
      ByKey(entries[..n])[AclKey(entries[n]) := entries[n]]
  }

  function AclKeys(entries: seq<ACL>): set<string> {
    set entry | entry in entries :: AclKey(entry)
  }

  predicate DistinctAclKeys(entries: seq<ACL>) {
    forall i, j :: 0 <= i < j < |entries| ==> AclKey(entries[i]) != AclKey(entries[j])
  }

  /* Same keys, each once, with the same verdict. The priority is not compared. */
  predicate SameEntries(a: seq<ACL>, b: seq<ACL>) {
    && DistinctAclKeys(b)
    && AclKeys(a) == AclKeys(b)
    && forall e :: e in b ==> ByKey(a)[AclKey(e)].allow == e.allow
  }

  /* The prefix of a list compared so far. */
  predicate EntriesFound(found: map<string, ACL>, b: seq<ACL>) {
    && DistinctAclKeys(b)
    && forall e :: e in b ==> AclKey(e) in found && found[AclKey(e)].allow == e.allow
  }

  lemma EntriesFoundSnoc(found: map<string, ACL>, b: seq<ACL>, entry: ACL)
    ensures EntriesFound(found, b + [entry])
       <==> && EntriesFound(found, b) && AclKey(entry) !in AclKeys(b)
            && AclKey(entry) in found && found[AclKey(entry)].allow == entry.allow
    ensures AclKeys(b + [entry]) == AclKeys(b) + {AclKey(entry)}
  {
    hide AclKey;
    var more := b + [entry];
    if EntriesFound(found, more) {
      forall i, j | 0 <= i < j < |b| ensures AclKey(b[i]) != AclKey(b[j]) {
        assert AclKey(more[i]) != AclKey(more[j]);
      }
      forall i | 0 <= i < |b| ensures AclKey(b[i]) != AclKey(entry) {
        assert AclKey(more[i]) != AclKey(more[|b|]);
      }
    }
  }

  lemma EntriesFoundPrefix(found: map<string, ACL>, b: seq<ACL>, i: nat)
    requires i <= |b| && EntriesFound(found, b)
    ensures EntriesFound(found, b[..i])
  {
    hide AclKey;
  }

  lemma NoEntriesFound(found: map<string, ACL>)
    ensures EntriesFound(found, []) && AclKeys([]) == {}
  {
  }

  method CompareEntries(a: seq<ACL>, b: seq<ACL>) returns (same: bool)
    ensures same <==> SameEntries(a, b)
  {
    hide AclKey, EntriesFound, AclKeys, ByKey;
    var left := map[];
    NoEntriesByKey();
    assert a[..0] == [];
    for i := 0 to |a|
      invariant left == ByKey(a[..i])
    {
      PrefixStep(a, i);
      ByKeySnoc(a[..i], a[i]);
      left := left[AclKey(a[i]) := a[i]];
    }
    assert a[..|a|] == a;
    ghost var found := ByKey(a);
    NoEntriesFound(found);
    assert b[..0] == [];
    SameEntriesFound(a, b);
    for i := 0 to |b|
      invariant EntriesFound(found, b[..i])
      invariant left == found - AclKeys(b[..i])
    {
      PrefixStep(b, i);
      EntriesFoundSnoc(found, b[..i], b[i]);
      var key := AclKey(b[i]);
      if key !in left || left[key].allow != b[i].allow {
        if EntriesFound(found, b) { EntriesFoundPrefix(found, b, i + 1); }
        return false;
      }
      left := left - {key};
    }
    assert b[..|b|] == b;
    return left == map[];
  }

  lemma NoEntriesByKey()
    ensures ByKey([]) == map[]
  {
  }

  lemma ByKeySnoc(a: seq<ACL>, entry: ACL)
    ensures ByKey(a + [entry]) == ByKey(a)[AclKey(entry) := entry]
  {
    assert (a + [entry])[..|a|] == a;
  }

  lemma SameEntriesFound(a: seq<ACL>, b: seq<ACL>)
    ensures SameEntries(a, b) <==> EntriesFound(ByKey(a), b) && ByKey(a) - AclKeys(b) == map[]
  {
    hide AclKey, ByKey;
    assert (ByKey(a) - AclKeys(b)).Keys == AclKeys(a) - AclKeys(b);
    if EntriesFound(ByKey(a), b) && AclKeys(a) - AclKeys(b) == {} {
      assert AclKeys(a) == AclKeys(b) + (AclKeys(a) - AclKeys(b));
    }
  }

  // ---------------------------------------------------------------- objects by name

  function ClientsByName(clients: seq<Client>): (found: map<string, Client>)
    ensures found.Keys == NameSet(ClientNames(clients))
    ensures forall name :: name in found ==> found[name] in clients && found[name].name == name
  {
    if clients == [] then map[]
    else
      var n := |clients| - 1;
      assert clients == clients[..n] + [clients[n]];
      ClientNamesSnoc(clients[..n], clients[n]);
      ClientsByName(clients[..n])[clients[n].name := clients[n]]
  }

  function GroupsByName(groups: seq<Group>): (found: map<string, Group>)
    ensures found.Keys == NameSet(GroupNames(groups))
    ensures forall name :: name in found ==> found[name] in groups && found[name].name == name
  {
    if groups == [] then map[]
    else
      var n := |groups| - 1;
      assert groups == groups[..n] + [groups[n]];
      GroupNamesSnoc(groups[..n], groups[n]);
      GroupsByName(groups[..n])[groups[n].name := groups[n]]
  }

  function RolesByName(roles: seq<Role>): (found: map<string, Role>)
    ensures found.Keys == NameSet(RoleNames(roles))
    ensures forall name :: name in found ==> found[name] in roles && found[name].name == name
  {
    if roles == [] then map[]
    else
      var n := |roles| - 1;
      assert roles == roles[..n] + [roles[n]];
      RoleNamesSnoc(roles[..n], roles[n]);
      RolesByName(roles[..n])[roles[n].name := roles[n]]
  }

  predicate ClientAgrees(found: Client, client: Client) {
    found.disabled == client.disabled && SameRefs(found.roles, client.roles) && SameRefs(found.groups, client.groups)
  }

  predicate GroupAgrees(found: Group, group: Group) {
    SameRefs(found.roles, group.roles) && SameRefs(found.clients, group.clients)
  }

  predicate RoleAgrees(found: Role, role: Role) {
    SameEntries(found.acls, role.acls)
  }

  predicate ClientsAgree(desired: seq<Client>, actual: seq<Client>) {
    && Distinct(ClientNames(desired))
    && NameSet(ClientNames(desired)) == NameSet(ClientNames(actual))
    && forall c :: c in desired ==> c.name in ClientsByName(actual) && ClientAgrees(ClientsByName(actual)[c.name], c)
  }

  predicate GroupsAgree(desired: seq<Group>, actual: seq<Group>) {
    && Distinct(GroupNames(desired))
    && NameSet(GroupNames(desired)) == NameSet(GroupNames(actual))
    && forall g :: g in desired ==> g.name in GroupsByName(actual) && GroupAgrees(GroupsByName(actual)[g.name], g)
  }

  predicate RolesAgree(desired: seq<Role>, actual: seq<Role>) {
    && Distinct(RoleNames(desired))
    && NameSet(RoleNames(desired)) == NameSet(RoleNames(actual))
    && forall r :: r in desired ==> r.name in RolesByName(actual) && RoleAgrees(RolesByName(actual)[r.name], r)
  }

  /* The two documents hold the same objects, each once in the desired one, with the same
     references, access entries and settings. */
  predicate Agree(desired: Document, actual: Document) {
    && ClientsAgree(desired.clients, actual.clients)
    && GroupsAgree(desired.groups, actual.groups)
    && RolesAgree(desired.roles, actual.roles)
    && desired.defaults == actual.defaults
    && desired.anonymous == actual.anonymous
  }

  // ---------------------------------------------------------------- the comparison

  /* A name is taken at most once from the names still to be found. */
  predicate TakenOnce(names: seq<string>, found: set<string>) {
    Distinct(names) && NameSet(names) <= found
  }

  lemma TakenOnceSnoc(names: seq<string>, name: string, found: set<string>)
    ensures TakenOnce(names + [name], found) <==> TakenOnce(names, found) && name in found - NameSet(names)
    ensures NameSet(names + [name]) == NameSet(names) + {name}
  {
    DistinctSnoc(names, name);
    assert forall x :: x in names + [name] <==> x in names || x == name;
    assert name in NameSet(names + [name]);
    assert NameSet(names) <= NameSet(names + [name]);
  }

  method ReportRest(kind: ObjectKind, rest: set<string>) returns (issues: seq<Difference>)
    ensures issues == [] <==> rest == {}
  {
    issues := [];
    var left := rest;
    while left != {}
      invariant left <= rest
      invariant issues == [] <==> left == rest
    {
      var name :| name in left;
      issues := issues + [Difference(kind, name, "")];
      left := left - {name};
    }
  }

  method VerifyClients(desired: seq<Client>, actual: seq<Client>) returns (issues: seq<Difference>)
    ensures issues == [] <==> ClientsAgree(desired, actual)
  {
    hide ClientsByName, NameSet, TakenOnce, ClientNames, SameRefs;
    var found := ClientsByName(actual);
    issues := [];
    var left := found.Keys;
    TakenOnceEmpty(found.Keys);
    assert ClientNames(desired)[..0] == [];
    for i := 0 to |desired|
      invariant issues == [] <==>
                && TakenOnce(ClientNames(desired)[..i], found.Keys)
                && forall c :: c in desired[..i] ==> c.name in found && ClientAgrees(found[c.name], c)
      invariant left == found.Keys - NameSet(ClientNames(desired)[..i])
    {
      PrefixStep(desired, i);
      PrefixStep(ClientNames(desired), i);
      var client := desired[i];
      TakenOnceSnoc(ClientNames(desired)[..i], client.name, found.Keys);
      if client.name !in left {
        issues := issues + [Difference(ClientObject, client.name, "")];
      } else {
        if found[client.name].disabled != client.disabled {
          issues := issues + [Difference(ClientObject, client.name, "disabled")];
        }
        var sameRoles := CompareRefs(found[client.name].roles, client.roles);
        if !sameRoles {
          issues := issues + [Difference(ClientObject, client.name, "roles")];
        }
        var sameGroups := CompareRefs(found[client.name].groups, client.groups);
        if !sameGroups {
          issues := issues + [Difference(ClientObject, client.name, "groups")];
        }
      }
      left := left - {client.name};
    }
    assert desired[..|desired|] == desired;
    assert ClientNames(desired)[..|desired|] == ClientNames(desired);
    TakenAll(ClientNames(desired), found.Keys);
    var rest := ReportRest(ClientObject, left);
    issues := issues + rest;
  }

  lemma TakenOnceEmpty(found: set<string>)
    ensures TakenOnce([], found) && NameSet([]) == {}
  {
  }

  lemma TakenAll(names: seq<string>, found: set<string>)
    ensures TakenOnce(names, found) && found - NameSet(names) == {} <==> Distinct(names) && NameSet(names) == found
  {
    if NameSet(names) <= found {
      assert found == NameSet(names) + (found - NameSet(names));
    }
  }

  method VerifyGroups(desired: seq<Group>, actual: seq<Group>) returns (issues: seq<Difference>)
    ensures issues == [] <==> GroupsAgree(desired, actual)
  {
    hide GroupsByName, NameSet, TakenOnce, GroupNames, SameRefs;
    var found := GroupsByName(actual);
    issues := [];
    var left := found.Keys;
    TakenOnceEmpty(found.Keys);
    assert GroupNames(desired)[..0] == [];
    for i := 0 to |desired|
      invariant issues == [] <==>
                && TakenOnce(GroupNames(desired)[..i], found.Keys)
                && forall g :: g in desired[..i] ==> g.name in found && GroupAgrees(found[g.name], g)
      invariant left == found.Keys - NameSet(GroupNames(desired)[..i])
    {
      PrefixStep(desired, i);
      PrefixStep(GroupNames(desired), i);
      var group := desired[i];
      TakenOnceSnoc(GroupNames(desired)[..i], group.name, found.Keys);
      if group.name !in left {
        issues := issues + [Difference(GroupObject, group.name, "")];
      } else {
        var sameRoles := CompareRefs(found[group.name].roles, group.roles);
        if !sameRoles {
          issues := issues + [Difference(GroupObject, group.name, "roles")];
        }
        var sameClients := CompareRefs(found[group.name].clients, group.clients);
        if !sameClients {
          issues := issues + [Difference(GroupObject, group.name, "clients")];
        }
      }
      left := left - {group.name};
    }
    assert desired[..|desired|] == desired;
    assert GroupNames(desired)[..|desired|] == GroupNames(desired);
    TakenAll(GroupNames(desired), found.Keys);
    var rest := ReportRest(GroupObject, left);
    issues := issues + rest;
  }

  method VerifyRoles(desired: seq<Role>, actual: seq<Role>) returns (issues: seq<Difference>)
    ensures issues == [] <==> RolesAgree(desired, actual)
  {
    hide RolesByName, NameSet, TakenOnce, RoleNames, SameEntries;
    var found := RolesByName(actual);
    issues := [];
    var left := found.Keys;
    TakenOnceEmpty(found.Keys);
    assert RoleNames(desired)[..0] == [];
    for i := 0 to |desired|
      invariant issues == [] <==>
                && TakenOnce(RoleNames(desired)[..i], found.Keys)
                && forall r :: r in desired[..i] ==> r.name in found && RoleAgrees(found[r.name], r)
      invariant left == found.Keys - NameSet(RoleNames(desired)[..i])
    {
      PrefixStep(desired, i);
      PrefixStep(RoleNames(desired), i);
      var role := desired[i];
      TakenOnceSnoc(RoleNames(desired)[..i], role.name, found.Keys);
      if role.name !in left {
        issues := issues + [Difference(RoleObject, role.name, "")];
      } else {
        var same := CompareEntries(found[role.name].acls, role.acls);
        if !same {
          issues := issues + [Difference(RoleObject, role.name, "acls")];
        }
      }
      left := left - {role.name};
    }
    assert desired[..|desired|] == desired;
    assert RoleNames(desired)[..|desired|] == RoleNames(desired);
    TakenAll(RoleNames(desired), found.Keys);
    var rest := ReportRest(RoleObject, left);
    issues := issues + rest;
  }

  /* No difference is reported exactly when the documents agree. */
  method Verify(desired: Document, actual: Document) returns (issues: seq<Difference>)
    ensures issues == [] <==> Agree(desired, actual)
  {
    hide ClientsAgree, GroupsAgree, RolesAgree;
    var clients := VerifyClients(desired.clients, actual.clients);
    var groups := VerifyGroups(desired.groups, actual.groups);
    var roles := VerifyRoles(desired.roles, actual.roles);
    issues := clients + groups + roles;
    if desired.defaults != actual.defaults {
      issues := issues + [Difference(DefaultAccessObject, "default_access", "")];
    }
    if desired.anonymous != actual.anonymous {
      issues := issues + [Difference(AnonymousGroupObject, "anonymous_group", "")];
    }
  }
}
