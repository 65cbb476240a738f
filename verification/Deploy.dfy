/**
 The deploy service (`previewLocked`, `applyRevision` and the rollback helpers,
 internal/deploy/service.go; the registry, internal/deploy/acl_scope.go).

 Every store and disk primitive may fail. The contracts say, for every pattern of failures, what the
 persisted status of a deployment says about the disk, the registry and the preview revision.
 */
module Deploy {
  import opened Options
  import opened AclDocument
  import opened Disks
  import opened Applier
  import opened DeployPlan
  import opened Destructive

  const REVISION_TTL := 3600

  /* A stored preview; hashes are represented by what they hash. */
  datatype Revision = Revision(
    baseACL: string, basePasswd: string,
    renderedACL: string, renderedPasswd: string, filesHash: string,
    aclRendered: string, passwdRendered: string, listenerRendered: map<string, string>,
    createdAt: nat, consumed: bool)

  datatype Status = Saved | Applying | PendingActivation | ActiveVerified | Failed | RolledBack | RollbackFailedStatus

  /* The listener snapshots cover the files the apply writes and those it deletes. */
  datatype Deployment = Deployment(
    revisionId: string, status: Status,
    aclSnapshot: string, passwdSnapshot: string, listenerSnapshots: seq<Target>)

  datatype Refusal =
    | RevisionMissing | RevisionConsumed | RevisionExpired | RevisionMismatch
    | ScopeNotWired | UnmanagedContent | StoreFailed

  datatype ApplyResult = Refused(reason: Refusal) | Finished

  /* What one apply reads from its surroundings. */
  datatype World = World(
    now: nat,
    rendered: Option<Rendered>,
    known: set<string>,
    wired: bool,
    cancelled: bool,
    verified: bool)

  // ---------------------------------------------------------------- requests

  function RequestFor(plan: Plan, passwdBody: string, passwdSnapshot: string): ApplyRequest {
    ApplyRequest(plan.global.body, plan.global.snapshot, plan.listener, plan.remove, passwdBody, passwdSnapshot)
  }

  function SnapshotFiles(snapshots: seq<Target>): (files: seq<ACLFile>)
    ensures |files| == |snapshots|
    ensures forall i :: 0 <= i < |files| ==> files[i] == ACLFile(snapshots[i].path, snapshots[i].content, "")
  {
    seq(|snapshots|, i requires 0 <= i < |snapshots| => ACLFile(snapshots[i].path, snapshots[i].content, ""))
  }

  /* The request that writes the snapshots of a deployment back; it carries no snapshots of its own. */
  function RollbackRequest(d: Deployment): ApplyRequest {
    ApplyRequest(d.aclSnapshot, "", SnapshotFiles(d.listenerSnapshots), [], d.passwdSnapshot, "")
  }

  function PlanSnapshots(plan: Plan): seq<Target> {
    Snapshots(plan.listener) + Snapshots(plan.remove)
  }

  /* The preview a revision was stored from. */
  ghost predicate StoredFrom(rev: Revision, r: Rendered, aclPath: string, dir: string) {
    && RenderedFor(r, aclPath, dir)
    && rev.renderedACL == rev.aclRendered == r.aclBody
    && rev.renderedPasswd == rev.passwdRendered == r.passwdBody
    && rev.filesHash == FilesHash(r.files)
    && rev.listenerRendered == ListenerBodies(r.files)
  }

  /* What was in place when a preview was stored. */
  datatype Seen = Seen(files: Files, now: nat, rendered: Rendered)

  /* A revision records the two files as they read at its preview, the time, and what was rendered. */
  ghost predicate Recorded(rev: Revision, seen: Seen, aclPath: string, passwdPath: string, dir: string) {
    && rev.baseACL == Reads(seen.files, aclPath)
    && rev.basePasswd == Reads(seen.files, passwdPath)
    && rev.createdAt == seen.now
    && StoredFrom(rev, seen.rendered, aclPath, dir)
  }

  ghost predicate SameReads(a: Files, b: Files) {
    forall p :: Reads(a, p) == Reads(b, p)
  }

  ghost predicate TruePlan(before: Files, aclPath: string, passwdPath: string, plan: Plan, passwdSnapshot: string) {
    && plan.global.path == aclPath
    && plan.global.snapshot == Reads(before, aclPath)
    && passwdSnapshot == Reads(before, passwdPath)
    && (forall f :: f in plan.listener || f in plan.remove ==> f.snapshot == Reads(before, f.path))
  }

  lemma RestoredReads(before: Files, aclPath: string, passwdPath: string, plan: Plan, passwdBody: string, passwdSnapshot: string)
    requires TruePlan(before, aclPath, passwdPath, plan, passwdSnapshot)
    ensures SameReads(OldFiles(before, aclPath, passwdPath, RequestFor(plan, passwdBody, passwdSnapshot)), before)
  {
    var req := RequestFor(plan, passwdBody, passwdSnapshot);
    var targets := OldTargets(aclPath, passwdPath, req);
    forall t | t in targets ensures t.content == Reads(before, t.path) {
      OldTargetOrigin(aclPath, passwdPath, req, t);
    }
    hide OldTargets, Reads;
    forall p ensures Reads(OldFiles(before, aclPath, passwdPath, req), p) == Reads(before, p) {
      RestoreReads(before, targets, p);
    }
  }

  lemma OldTargetOrigin(aclPath: string, passwdPath: string, req: ApplyRequest, t: Target)
    requires t in OldTargets(aclPath, passwdPath, req)
    ensures || t == Target(aclPath, req.aclSnapshot)
            || t == Target(passwdPath, req.passwdSnapshot)
            || exists f :: (f in req.listenerFiles || f in req.removedFiles) && t == Target(f.path, f.snapshot)
  {
    var files := ACLFiles(aclPath, req);
    if t in Snapshots(files) {
      var i :| 0 <= i < |files| && Snapshots(files)[i] == t;
      assert files[i] == ACLFile(aclPath, req.aclBody, req.aclSnapshot) || files[i] in req.listenerFiles;
    } else if t in Snapshots(req.removedFiles) {
      var i :| 0 <= i < |req.removedFiles| && Snapshots(req.removedFiles)[i] == t;
      assert req.removedFiles[i] in req.removedFiles;
    }
  }

  /* Writing a deployment's snapshots back restores every file the apply touched. */
  lemma RollbackReads(before: Files, now: Files, aclPath: string, passwdPath: string, plan: Plan,
                      passwdBody: string, passwdSnapshot: string, d: Deployment)
    requires TruePlan(before, aclPath, passwdPath, plan, passwdSnapshot)
    requires d.aclSnapshot == plan.global.snapshot && d.passwdSnapshot == passwdSnapshot
    requires d.listenerSnapshots == PlanSnapshots(plan)
    requires SameOutside(now, before, PathsOf(OldTargets(aclPath, passwdPath, RequestFor(plan, passwdBody, passwdSnapshot))))
    ensures SameReads(NewFiles(now, aclPath, passwdPath, RollbackRequest(d)), before)
  {
    var req := RequestFor(plan, passwdBody, passwdSnapshot);
    var rb := RollbackRequest(d);
    var targets := NewTargets(aclPath, passwdPath, rb);
    RollbackTargets(aclPath, passwdPath, plan, passwdBody, passwdSnapshot, d);
    forall t | t in targets ensures t.content == Reads(before, t.path) {
      OldTargetOrigin(aclPath, passwdPath, req, t);
    }
    hide NewTargets, OldTargets, Reads, WriteAll, PathsOf, SameOutside;
    WriteCovers(now, before, targets);
    assert NewFiles(now, aclPath, passwdPath, rb) == WriteAll(now, targets);
    forall p ensures Reads(WriteAll(before, targets), p) == Reads(before, p) {
      RestoreReads(before, targets, p);
    }
  }

  /* The rollback writes what an internal restore would. */
  lemma RollbackTargets(aclPath: string, passwdPath: string, plan: Plan, passwdBody: string, passwdSnapshot: string, d: Deployment)
    requires plan.global.path == aclPath
    requires d.aclSnapshot == plan.global.snapshot && d.passwdSnapshot == passwdSnapshot
    requires d.listenerSnapshots == PlanSnapshots(plan)
    ensures NewTargets(aclPath, passwdPath, RollbackRequest(d))
         == OldTargets(aclPath, passwdPath, RequestFor(plan, passwdBody, passwdSnapshot))
  {
    var rb := RollbackRequest(d);
    var req := RequestFor(plan, passwdBody, passwdSnapshot);
    var head := Target(aclPath, plan.global.snapshot);
    assert Bodies(ACLFiles(aclPath, rb)) == [head] + d.listenerSnapshots;
    assert Snapshots(ACLFiles(aclPath, req)) == [head] + Snapshots(plan.listener);
    assert [head] + Snapshots(plan.listener) + Snapshots(plan.remove) == [head] + (Snapshots(plan.listener) + Snapshots(plan.remove));
  }

  /* A rollback touches the paths the apply touched. */
  lemma RollbackPaths(aclPath: string, passwdPath: string, plan: Plan, passwdBody: string, passwdSnapshot: string, d: Deployment)
    requires d.listenerSnapshots == PlanSnapshots(plan)
    ensures PathsOf(OldTargets(aclPath, passwdPath, RollbackRequest(d)))
         == PathsOf(OldTargets(aclPath, passwdPath, RequestFor(plan, passwdBody, passwdSnapshot)))
  {
    var rb, req := RollbackRequest(d), RequestFor(plan, passwdBody, passwdSnapshot);
    SnapshotFilesPaths(d.listenerSnapshots);
    hide PathsOf, Snapshots, SnapshotFiles;
    TouchedPaths(aclPath, passwdPath, rb);
    TouchedPaths(aclPath, passwdPath, req);
    PathsConcat(Snapshots(plan.listener), Snapshots(plan.remove));
    SnapshotsPaths(plan.listener);
    SnapshotsPaths(plan.remove);
  }

  lemma SnapshotFilesPaths(snapshots: seq<Target>)
    ensures (set f | f in SnapshotFiles(snapshots) :: f.path) == PathsOf(snapshots)
  {
    var files := SnapshotFiles(snapshots);
    forall t | t in snapshots ensures t.path in set f | f in files :: f.path {
      var i :| 0 <= i < |snapshots| && snapshots[i] == t;
      assert files[i] in files;
    }
  }

  lemma TouchedPaths(aclPath: string, passwdPath: string, req: ApplyRequest)
    ensures PathsOf(OldTargets(aclPath, passwdPath, req))
         == {aclPath, passwdPath} + (set f | f in req.listenerFiles :: f.path) + (set f | f in req.removedFiles :: f.path)
  {
    var files := ACLFiles(aclPath, req);
    SnapshotsPaths(files);
    SnapshotsPaths(req.removedFiles);
    assert forall f :: f in files <==> f == files[0] || f in req.listenerFiles;
    hide PathsOf, Snapshots;
    PathsConcat(Snapshots(files) + Snapshots(req.removedFiles), [Target(passwdPath, req.passwdSnapshot)]);
    PathsConcat(Snapshots(files), Snapshots(req.removedFiles));
    OnePath(Target(passwdPath, req.passwdSnapshot));
  }

  /* Whatever comes of a rollback, only paths the apply touched differ from before the apply. */
  lemma RollbackFrame(before: Files, now: Files, after: Files, aclPath: string, passwdPath: string, plan: Plan,
                      passwdBody: string, passwdSnapshot: string, d: Deployment)
    requires d.listenerSnapshots == PlanSnapshots(plan)
    requires var touched := PathsOf(OldTargets(aclPath, passwdPath, RequestFor(plan, passwdBody, passwdSnapshot)));
             SameOutside(now, before, touched)
    requires var rb := RollbackRequest(d);
             || after == now
             || after == NewFiles(now, aclPath, passwdPath, rb)
             || after == OldFiles(now, aclPath, passwdPath, rb)
             || SameOutside(after, now, PathsOf(OldTargets(aclPath, passwdPath, rb)))
    ensures SameOutside(after, before, PathsOf(OldTargets(aclPath, passwdPath, RequestFor(plan, passwdBody, passwdSnapshot))))
  {
    hide PathsOf, OldTargets, NewTargets, PlanSnapshots, RequestFor, NewFiles, WriteAll;
    var rb := RollbackRequest(d);
    RollbackPaths(aclPath, passwdPath, plan, passwdBody, passwdSnapshot, d);
    AppliedFrame(now, aclPath, passwdPath, rb);
    WriteOutside(now, OldTargets(aclPath, passwdPath, rb));
  }

  /* Neither doing nothing nor restoring changes a path the request does not touch. */
  lemma RestoreFrame(files: Files, aclPath: string, passwdPath: string, req: ApplyRequest)
    ensures SameOutside(files, files, PathsOf(OldTargets(aclPath, passwdPath, req)))
    ensures SameOutside(OldFiles(files, aclPath, passwdPath, req), files, PathsOf(OldTargets(aclPath, passwdPath, req)))
  {
    hide OldTargets, WriteAll, PathsOf;
    WriteOutside(files, OldTargets(aclPath, passwdPath, req));
  }

  /* An inner restore of a rollback request, which has no snapshots of its own, empties every file
     the apply touched. */
  lemma RestoredRollbackBlanks(now: Files, aclPath: string, passwdPath: string, d: Deployment, path: string)
    requires path in PathsOf(OldTargets(aclPath, passwdPath, RollbackRequest(d)))
    ensures Reads(OldFiles(now, aclPath, passwdPath, RollbackRequest(d)), path) == ""
  {
    var targets := OldTargets(aclPath, passwdPath, RollbackRequest(d));
    forall t | t in targets ensures t.content == "" {
      OldTargetOrigin(aclPath, passwdPath, RollbackRequest(d), t);
    }
    hide OldTargets, WriteAll;
    WrittenFrom(now, targets, path);
  }

  // ---------------------------------------------------------------- the service

  ghost predicate NoRepeats(ids: seq<string>) {
    forall i, j :: 0 <= i < j < |ids| ==> ids[i] != ids[j]
  }

  class DeployService {
    const aclPath: string
    const passwdPath: string
    const dir: string
    const applier: FileApplier
    const disk: Disk
    var revisions: map<string, Revision>
    var deployments: seq<Deployment>
    /* The listener files MCM owns, by path. */
    var registry: map<string, string>
    /* The failures of the registry, and those of the other stores and of what an apply looks up. */
    ghost var registryFaults: nat
    ghost var storeFaults: nat
    /* What each preview that was stored saw. */
    ghost var seen: map<string, Seen>
    /* The revisions handed to the applier so far. */
    ghost var reached: seq<string>
    /* The listener files of every render verified active so far, the one in force last. */
    ghost var activated: seq<map<string, string>>

    ghost predicate Valid()
      reads `revisions, `reached, `seen
    {
      && applier.disk == disk && applier.aclPath == aclPath && applier.passwdPath == passwdPath
      && NoRepeats(reached)
      && (forall id :: id in reached ==> id in revisions && revisions[id].consumed)
      && (forall id :: id in revisions ==> id in seen && Recorded(revisions[id], seen[id], aclPath, passwdPath, dir))
    }

    /* Everything that failed so far. */
    ghost function Faults(): nat
      reads `registryFaults, `storeFaults, disk`faults
    {
      registryFaults + storeFaults + disk.faults
    }

    constructor (aclPath: string, passwdPath: string, dir: string, applier: FileApplier, registry: map<string, string>)
      requires applier.aclPath == aclPath && applier.passwdPath == passwdPath
      ensures Valid() && this.registry == registry && deployments == [] && revisions == map[] && reached == []
      ensures this.aclPath == aclPath && this.passwdPath == passwdPath && this.dir == dir && this.disk == applier.disk
    {
      this.aclPath, this.passwdPath, this.dir, this.applier, this.disk := aclPath, passwdPath, dir, applier, applier.disk;
      this.registry, revisions, deployments := registry, map[], [];
      registryFaults, storeFaults, seen, reached, activated := 0, 0, map[], [], [];
    }

    // ---------------------------------------------------------------- stores

    method InsertPreviewRevision(id: string, revision: Revision) returns (ok: bool)
      modifies `revisions, `storeFaults
      ensures storeFaults >= old(storeFaults)
      ensures ok ==> id !in old(revisions) && revisions == old(revisions)[id := revision]
      ensures !ok ==> revisions == old(revisions)
      ensures ok <==> id !in old(revisions) && storeFaults == old(storeFaults)
    {
      if id in revisions {
        return false;
      }
      if * {
        storeFaults := storeFaults + 1;
        return false;
      }
      revisions := revisions[id := revision];
      ok := true;
    }

    method GetPreviewRevision(id: string) returns (ok: bool, found: Option<Revision>)
      modifies `storeFaults
      ensures storeFaults == if ok then old(storeFaults) else old(storeFaults) + 1
      ensures ok ==> found == if id in revisions then Some(revisions[id]) else None
    {
      if * {
        storeFaults := storeFaults + 1;
        return false, None;
      }
      return true, if id in revisions then Some(revisions[id]) else None;
    }

    /* Any other look-up an operation depends on. */
    method LookUp() returns (ok: bool)
      modifies `storeFaults
      ensures storeFaults == if ok then old(storeFaults) else old(storeFaults) + 1
    {
      ok := *;
      if !ok {
        storeFaults := storeFaults + 1;
      }
    }

    /* A revision is consumed at most once. */
    method ConsumePreviewRevision(id: string) returns (ok: bool)
      modifies `revisions, `storeFaults
      ensures storeFaults >= old(storeFaults)
      ensures ok <==> id in old(revisions) && !old(revisions)[id].consumed && storeFaults == old(storeFaults)
      ensures ok ==> id in old(revisions) && !old(revisions)[id].consumed
                     && revisions == old(revisions)[id := old(revisions)[id].(consumed := true)]
      ensures !ok ==> revisions == old(revisions)
    {
      if id !in revisions || revisions[id].consumed {
        return false;
      }
      if * {
        storeFaults := storeFaults + 1;
        return false;
      }
      revisions := revisions[id := revisions[id].(consumed := true)];
      ok := true;
    }

    method InsertDeployment(d: Deployment) returns (ok: bool)
      modifies `deployments, `storeFaults
      ensures deployments == if ok then old(deployments) + [d] else old(deployments)
      ensures storeFaults == if ok then old(storeFaults) else old(storeFaults) + 1
    {
      if * {
        storeFaults := storeFaults + 1;
        return false;
      }
      deployments := deployments + [d];
      ok := true;
    }

    /* Persists the status of the deployment in progress, the last one. */
    method UpdateStatus(status: Status) returns (ok: bool)
      requires |deployments| > 0
      modifies `deployments, `storeFaults
      ensures storeFaults == if ok then old(storeFaults) else old(storeFaults) + 1
      ensures ok ==> deployments == old(deployments)[|old(deployments)| - 1 := old(deployments)[|old(deployments)| - 1].(status := status)]
      ensures !ok ==> deployments == old(deployments)
    {
      if * {
        storeFaults := storeFaults + 1;
        return false;
      }
      deployments := deployments[|deployments| - 1 := deployments[|deployments| - 1].(status := status)];
      ok := true;
    }

    method ListManaged() returns (ok: bool, rows: map<string, string>)
      modifies `registryFaults
      ensures ok ==> rows == registry && registryFaults == old(registryFaults)
      ensures !ok ==> registryFaults == old(registryFaults) + 1
    {
      if * {
        registryFaults := registryFaults + 1;
        return false, map[];
      }
      return true, registry;
    }

    method DeleteManaged(path: string) returns (ok: bool)
      modifies `registry, `registryFaults
      ensures ok ==> registry == old(registry) - {path} && registryFaults == old(registryFaults)
      ensures !ok ==> registry == old(registry) && registryFaults == old(registryFaults) + 1
    {
      if * {
        registryFaults := registryFaults + 1;
        return false;
      }
      registry := registry - {path};
      ok := true;
    }

    method RecordManaged(path: string, listenerId: string) returns (ok: bool)
      modifies `registry, `registryFaults
      ensures ok ==> registry == old(registry)[path := listenerId] && registryFaults == old(registryFaults)
      ensures !ok ==> registry == old(registry) && registryFaults == old(registryFaults) + 1
    {
      if * {
        registryFaults := registryFaults + 1;
        return false;
      }
      registry := registry[path := listenerId];
      ok := true;
    }

    // ---------------------------------------------------------------- the registry

    method DropUnwanted(rows: map<string, string>, wanted: map<string, string>) returns (ok: bool)
      requires rows == registry
      modifies `registry, `registryFaults
      ensures ok ==> (forall p :: p in registry ==> p in wanted) && registryFaults == old(registryFaults)
      ensures !ok ==> registryFaults > old(registryFaults)
    {
      var pending := rows.Keys;
      while pending != {}
        invariant pending <= rows.Keys
        invariant forall p :: p in registry ==> p in pending || p in wanted
        invariant registryFaults == old(registryFaults)
        decreases |pending|
      {
        var p :| p in pending;
        if p !in wanted {
          ok := DeleteManaged(p);
          if !ok {
            return false;
          }
        }
        pending := pending - {p};
      }
      ok := true;
    }

    /* Makes the registry hold exactly the wanted rows; stops at the first failure. */
    method SyncRegistry(wanted: map<string, string>) returns (ok: bool)
      modifies `registry, `registryFaults
      ensures ok ==> registry == wanted && registryFaults == old(registryFaults)
      ensures !ok ==> registryFaults > old(registryFaults)
    {
      var rows;
      ok, rows := ListManaged();
      if !ok {
        return false;
      }
      ok := DropUnwanted(rows, wanted);
      if !ok {
        return false;
      }
      var pending := wanted.Keys;
      while pending != {}
        invariant pending <= wanted.Keys
        invariant forall p :: p in registry ==> p in wanted
        invariant forall p :: p in wanted && p !in pending ==> p in registry && registry[p] == wanted[p]
        invariant registryFaults == old(registryFaults)
        decreases |pending|
      {
        var p :| p in pending;
        ok := RecordManaged(p, wanted[p]);
        if !ok {
          return false;
        }
        pending := pending - {p};
      }
      ok := true;
    }

    method RecordManagedACLFiles(rendered: Rendered) returns (ok: bool)
      modifies `registry, `registryFaults
      ensures ok ==> registry == ListenerMap(rendered.files) && registryFaults == old(registryFaults)
      ensures !ok ==> registryFaults > old(registryFaults)
    {
      ok := SyncRegistry(ListenerMap(rendered.files));
    }

    method RestoreManagedACLFiles(previous: map<string, string>) returns (ok: bool)
      modifies `registry, `registryFaults
      ensures ok ==> registry == previous && registryFaults == old(registryFaults)
      ensures !ok ==> registryFaults > old(registryFaults)
    {
      ok := SyncRegistry(previous);
    }

    // ---------------------------------------------------------------- the plan

    method PlanACLFiles(rendered: Rendered, bodies: map<string, string>) returns (ok: bool, plan: Plan)
      requires |rendered.files| >= 1
      modifies `registryFaults, disk`faults
      ensures ok ==> IsPlan(plan, disk.files, rendered, bodies, registry)
      ensures registryFaults >= old(registryFaults) && disk.faults >= old(disk.faults)
      ensures ok <==> registryFaults == old(registryFaults) && disk.faults == old(disk.faults)
    {
      hide InRender;
      plan := Plan(ACLFile("", "", ""), [], []);
      var planned: seq<ACLFile> := [];
      for k := 0 to |rendered.files|
        invariant |planned| == k && registryFaults == old(registryFaults) && disk.faults == old(disk.faults)
        invariant forall i :: 0 <= i < k ==> planned[i] == PlanFile(rendered.files[i], disk.files, bodies)
      {
        var f := rendered.files[k];
        var read, snapshot := disk.Read(f.path);
        if !read {
          return false, plan;
        }
        planned := planned + [ACLFile(f.path, if f.path in bodies then bodies[f.path] else f.body, snapshot)];
      }
      var listed, rows := ListManaged();
      if !listed {
        return false, plan;
      }
      var paths := Retired(rows, rendered);
      var remove: seq<ACLFile> := [];
      for k := 0 to |paths|
        invariant |remove| == k && registryFaults == old(registryFaults) && disk.faults == old(disk.faults)
        invariant forall i :: 0 <= i < k ==> remove[i] == ACLFile(paths[i], "", Reads(disk.files, paths[i]))
      {
        var read, snapshot := disk.Read(paths[k]);
        if !read {
          return false, plan;
        }
        remove := remove + [ACLFile(paths[k], "", snapshot)];
      }
      plan := Plan(planned[0], planned[1..], remove);
      assert forall p :: p in PathSet(remove) <==> p in paths by {
        forall i | 0 <= i < |paths| ensures paths[i] in PathSet(remove) { assert remove[i] in remove; }
      }
      ok := true;
    }

    /* The managed files the render no longer uses, by path. */
    method Retired(rows: map<string, string>, rendered: Rendered) returns (paths: seq<string>)
      ensures Strings.StrictlySorted(paths)
      ensures forall p :: p in paths <==> p in rows && !InRender(p, rendered.files)
    {
      hide InRender;
      paths := [];
      var pending := rows.Keys;
      while pending != {}
        invariant pending <= rows.Keys
        invariant Strings.StrictlySorted(paths)
        invariant forall p :: p in paths <==> p in rows && p !in pending && !InRender(p, rendered.files)
        decreases |pending|
      {
        var p :| p in pending;
        if !InRender(p, rendered.files) {
          paths := Strings.SortedInsert(paths, p);
        }
        pending := pending - {p};
      }
    }

    // ---------------------------------------------------------------- preview

    method StorePreview(id: string, revision: Revision, ghost sight: Seen) returns (ok: bool)
      requires Valid() && Recorded(revision, sight, aclPath, passwdPath, dir)
      modifies `revisions, `seen, `storeFaults
      ensures Valid() && storeFaults >= old(storeFaults)
      ensures ok <==> id !in old(revisions) && storeFaults == old(storeFaults)
      ensures ok ==> revisions == old(revisions)[id := revision] && seen == old(seen)[id := sight]
      ensures !ok ==> revisions == old(revisions) && seen == old(seen)
    {
      hide NoRepeats, Recorded;
      ok := InsertPreviewRevision(id, revision);
      if ok {
        seen := seen[id := sight];
      }
    }

    /* Stores what is rendered together with what the two files read as. A preview can fail after its
       revision was stored: what follows only reports. */
    method Preview(id: string, world: World) returns (ok: bool)
      requires Valid()
      requires world.rendered.Some? ==> RenderedFor(world.rendered.value, aclPath, dir)
      modifies `revisions, `seen, `storeFaults, disk`faults
      ensures Valid() && storeFaults >= old(storeFaults) && disk.faults >= old(disk.faults)
      ensures ok ==> revisions != old(revisions)
      ensures revisions == old(revisions) ==> seen == old(seen)
      ensures revisions != old(revisions) ==>
                && id !in old(revisions) && id in revisions && revisions == old(revisions)[id := revisions[id]]
                && !revisions[id].consumed && world.rendered.Some?
                && revisions[id].baseACL == Reads(disk.files, aclPath)
                && revisions[id].basePasswd == Reads(disk.files, passwdPath)
                && revisions[id].createdAt == world.now
                && StoredFrom(revisions[id], world.rendered.value, aclPath, dir)
                && seen == old(seen)[id := Seen(disk.files, world.now, world.rendered.value)]
      // Nothing but a failed render, a taken id or a fault keeps a preview from being stored.
      ensures Faults() == old(Faults()) ==> (ok <==> world.rendered.Some? && id !in old(revisions))
    {
      hide RenderedFor, FilesHash, ListenerBodies, NoRepeats, Recorded, StoredFrom, Reads, Valid;
      if world.rendered.None? {
        return false;
      }
      var r := world.rendered.value;
      var readACL, currentACL := disk.Read(aclPath);
      if !readACL {
        return false;
      }
      var readPasswd, currentPasswd := disk.Read(passwdPath);
      if !readPasswd {
        return false;
      }
      var revision := Revision(currentACL, currentPasswd, r.aclBody, r.passwdBody, FilesHash(r.files),
                               r.aclBody, r.passwdBody, ListenerBodies(r.files), world.now, false);
      RecordedAtPreview(revision, Seen(disk.files, world.now, r), aclPath, passwdPath, dir);
      ok := StorePreview(id, revision, Seen(disk.files, world.now, r));
      if ok {
        assert id in revisions && id !in old(revisions);
        ok := LookUp();
      }
    }

    ghost predicate Grown(registryBefore: nat, storeBefore: nat, diskBefore: nat)
      reads `registryFaults, `storeFaults, disk`faults
    {
      registryFaults >= registryBefore && storeFaults >= storeBefore && disk.faults >= diskBefore
    }

    // ---------------------------------------------------------------- rollback

    function Last(): Deployment
      requires |deployments| > 0
      reads this
    {
      deployments[|deployments| - 1]
    }

    ghost predicate Touches(now: Files, before: Files, plan: Plan, passwdBody: string, passwdSnapshot: string) {
      SameOutside(now, before, PathsOf(OldTargets(aclPath, passwdPath, RequestFor(plan, passwdBody, passwdSnapshot))))
    }

    /* Every file the apply touched reads as nothing. */
    ghost predicate Blanked(now: Files, plan: Plan, passwdBody: string, passwdSnapshot: string) {
      forall p :: p in PathsOf(OldTargets(aclPath, passwdPath, RequestFor(plan, passwdBody, passwdSnapshot))) ==>
        Reads(now, p) == ""
    }

    /* Writes the snapshots back and persists what came of it. A rollback that fails leaves the disk as
       it was, blanks what the apply touched when it is restored in turn, or stops in the middle. */
    method RollbackAfterVerifyFailure(previousManaged: map<string, string>, ghost before: Files, ghost plan: Plan,
                                      ghost passwdBody: string) returns (outcome: Outcome)
      requires Valid() && |deployments| > 0
      requires TruePlan(before, aclPath, passwdPath, plan, Last().passwdSnapshot)
      requires Last().aclSnapshot == plan.global.snapshot && Last().listenerSnapshots == PlanSnapshots(plan)
      requires Touches(disk.files, before, plan, passwdBody, Last().passwdSnapshot)
      requires Last().status in {Applying, PendingActivation}
      modifies `deployments, `registry, `registryFaults, `storeFaults, disk
      ensures Valid() && Grown(old(registryFaults), old(storeFaults), old(disk.faults))
      ensures |deployments| == |old(deployments)|
              && deployments[..|deployments| - 1] == old(deployments)[..|deployments| - 1]
      ensures Last() == old(Last()).(status := Last().status)
      ensures storeFaults == old(storeFaults) ==>
                Last().status == if outcome == Applied then RolledBack else RollbackFailedStatus
      ensures outcome in {Applied, ReloadNotSignaled, StageFailed, Restored, RollbackFailed}
      ensures Last().status in {old(Last()).status, if outcome == Applied then RolledBack else RollbackFailedStatus}
      ensures outcome == Applied <==> applier.canReload && disk.faults == old(disk.faults)
      ensures outcome == Applied ==> SameReads(disk.files, before)
      ensures outcome == Applied && registryFaults == old(registryFaults) ==> registry == previousManaged
      ensures outcome != Applied ==> registry == old(registry)
      ensures outcome in {ReloadNotSignaled, StageFailed} ==> disk.files == old(disk.files)
      ensures outcome == Restored ==> Blanked(disk.files, plan, passwdBody, Last().passwdSnapshot)
      ensures Touches(disk.files, before, plan, passwdBody, Last().passwdSnapshot)
    {
      hide TruePlan, SameReads, PlanSnapshots, OldTargets, NewFiles, OldFiles, PathsOf, SameOutside, NoRepeats, Recorded, Reads;
      outcome := applier.Apply(false, RollbackRequest(Last()));
      RollbackFrame(before, old(disk.files), disk.files, aclPath, passwdPath, plan, passwdBody, Last().passwdSnapshot, Last());
      if outcome != Applied {
        RollbackPaths(aclPath, passwdPath, plan, passwdBody, Last().passwdSnapshot, Last());
        forall p | outcome == Restored && p in PathsOf(OldTargets(aclPath, passwdPath, RollbackRequest(Last())))
          ensures Reads(disk.files, p) == ""
        {
          RestoredRollbackBlanks(old(disk.files), aclPath, passwdPath, Last(), p);
        }
        var _ := UpdateStatus(RollbackFailedStatus);
        return;
      }
      RollbackReads(before, old(disk.files), aclPath, passwdPath, plan, passwdBody, Last().passwdSnapshot, Last());
      var _ := RestoreManagedACLFiles(previousManaged);
      var _ := UpdateStatus(RolledBack);
    }

    // ---------------------------------------------------------------- apply

    /* A stored revision that is neither consumed nor older than its hour. */
    ghost predicate Live(id: string, now: nat)
      reads `revisions
    {
      id in revisions && !revisions[id].consumed && now <= revisions[id].createdAt + REVISION_TTL
    }

    /* Both files read as they did at the preview. */
    ghost predicate Undisturbed(id: string)
      requires id in revisions
      reads `revisions, disk`files
    {
      Reads(disk.files, aclPath) == revisions[id].baseACL && Reads(disk.files, passwdPath) == revisions[id].basePasswd
    }

    /* What is rendered now is what the preview rendered. */
    ghost predicate SameRender(id: string, r: Rendered)
      requires id in revisions
      reads `revisions
    {
      && r.aclBody == revisions[id].renderedACL && r.passwdBody == revisions[id].renderedPasswd
      && FilesHash(r.files) == revisions[id].filesHash
    }

    /* The render of a live revision has not drifted since its preview. */
    ghost predicate Current(id: string, world: World)
      reads `revisions, disk`files
    {
      && Live(id, world.now) && Undisturbed(id)
      && world.rendered.Some? && SameRender(id, world.rendered.value)
    }

    /* The revision can be applied: nothing drifted, the rules reach the broker and nothing of others
       is lost. */
    ghost predicate Acceptable(id: string, world: World)
      reads `revisions, disk`files
    {
      && Current(id, world) && world.wired
      && Preserves(Reads(disk.files, aclPath), world.rendered.value.aclBody, world.known)
    }

    /* When each refusal is right, faults apart. */
    ghost predicate Justified(refusal: Refusal, id: string, world: World)
      reads `revisions, disk`files
    {
      match refusal
      case RevisionMissing => id !in revisions
      case RevisionConsumed => id in revisions && revisions[id].consumed
      case RevisionExpired =>
        id in revisions && !revisions[id].consumed && world.now > revisions[id].createdAt + REVISION_TTL
      case RevisionMismatch =>
        Live(id, world.now) && (!Undisturbed(id) || (world.rendered.Some? && !SameRender(id, world.rendered.value)))
      case StoreFailed => Live(id, world.now) && Undisturbed(id) && world.rendered.None?
      case ScopeNotWired => Current(id, world) && !world.wired
      case UnmanagedContent =>
        && Current(id, world) && world.wired
        && !Preserves(Reads(disk.files, aclPath), world.rendered.value.aclBody, world.known)
    }

    /* No two answers are right at once, and one always is. */
    lemma OneAnswer(id: string, world: World, a: Refusal, b: Refusal)
      ensures Justified(a, id, world) && Justified(b, id, world) ==> a == b
      ensures Justified(a, id, world) ==> !Acceptable(id, world)
      ensures Acceptable(id, world) || exists r :: Justified(r, id, world)
    {
      hide FilesHash, Preserves, Reads;
      if !Acceptable(id, world) {
        var r := if id !in revisions then RevisionMissing
                 else if revisions[id].consumed then RevisionConsumed
                 else if !Live(id, world.now) then RevisionExpired
                 else if !Undisturbed(id) then RevisionMismatch
                 else if world.rendered.None? then StoreFailed
                 else if !SameRender(id, world.rendered.value) then RevisionMismatch
                 else if !world.wired then ScopeNotWired
                 else UnmanagedContent;
        assert Justified(r, id, world);
      }
    }

    /* The revision and the files in place, without a look at what is rendered now. */
    method CheckStored(id: string, world: World)
      returns (refusal: Option<Refusal>, revision: Revision, aclSnapshot: string, passwdSnapshot: string)
      modifies `storeFaults, disk`faults
      ensures Grown(old(registryFaults), old(storeFaults), old(disk.faults))
      ensures refusal == Some(StoreFailed) <==> Faults() > old(Faults())
      ensures refusal.Some? && refusal.value != StoreFailed ==> Justified(refusal.value, id, world)
      ensures refusal.None? ==>
                && Live(id, world.now) && Undisturbed(id) && revision == revisions[id]
                && aclSnapshot == Reads(disk.files, aclPath) && passwdSnapshot == Reads(disk.files, passwdPath)
    {
      hide Reads, SameRender, Preserves;
      revision, aclSnapshot, passwdSnapshot := Revision("", "", "", "", "", "", "", map[], 0, true), "", "";
      var ok, found := GetPreviewRevision(id);
      if !ok {
        refusal := Some(StoreFailed);
        return;
      }
      if found.None? {
        refusal := Some(RevisionMissing);
        return;
      }
      revision := found.value;
      if revision.consumed {
        refusal := Some(RevisionConsumed);
        return;
      }
      if world.now > revision.createdAt + REVISION_TTL {
        refusal := Some(RevisionExpired);
        return;
      }
      ok, aclSnapshot := disk.Read(aclPath);
      if !ok {
        refusal := Some(StoreFailed);
        return;
      }
      ok, passwdSnapshot := disk.Read(passwdPath);
      if !ok {
        refusal := Some(StoreFailed);
        return;
      }
      if aclSnapshot != revision.baseACL || passwdSnapshot != revision.basePasswd {
        refusal := Some(RevisionMismatch);
        return;
      }
      refusal := None;
    }

    /* Everything that can refuse an apply before a deployment is recorded. */
    method CheckRevision(id: string, world: World)
      returns (refusal: Option<Refusal>, plan: Plan, aclSnapshot: string, passwdSnapshot: string)
      requires Valid()
      requires world.rendered.Some? ==> RenderedFor(world.rendered.value, aclPath, dir)
      modifies `registryFaults, `storeFaults, disk`faults
      ensures Grown(old(registryFaults), old(storeFaults), old(disk.faults))
      // Every answer but a failed store is right, and without a fault that one is too.
      ensures refusal.None? ==> Acceptable(id, world)
      ensures refusal.Some? && (refusal.value != StoreFailed || Faults() == old(Faults())) ==>
                Justified(refusal.value, id, world)
      ensures Faults() == old(Faults()) ==> (refusal.None? <==> Acceptable(id, world))
      ensures refusal.None? ==>
                && Faults() == old(Faults())
                && aclSnapshot == Reads(disk.files, aclPath) && passwdSnapshot == Reads(disk.files, passwdPath)
                && |world.rendered.value.files| >= 1
                && IsPlan(plan, disk.files, world.rendered.value,
                          RevisionBodies(aclPath, revisions[id].aclRendered, revisions[id].listenerRendered), registry)
    {
      hide Valid, RenderedFor, FilesHash, IsPlan, Preserves, RevisionBodies, Passes, Reads, Live, Undisturbed;
      plan := Plan(ACLFile("", "", ""), [], []);
      var revision;
      refusal, revision, aclSnapshot, passwdSnapshot := CheckStored(id, world);
      if refusal.Some? {
        OneAnswer(id, world, refusal.value, refusal.value);
        return;
      }
      if world.rendered.None? {
        refusal := Some(StoreFailed);
        return;
      }
      var current := world.rendered.value;
      if current.aclBody != revision.renderedACL || current.passwdBody != revision.renderedPasswd
         || FilesHash(current.files) != revision.filesHash {
        refusal := Some(RevisionMismatch);
        return;
      }
      FilesOfRender(current, aclPath, dir);
      var bodies := RevisionBodies(aclPath, revision.aclRendered, revision.listenerRendered);
      var ok;
      ok, plan := PlanACLFiles(current, bodies);
      if !ok {
        refusal := Some(StoreFailed);
        return;
      }
      ok := LookUp();
      if !ok {
        refusal := Some(StoreFailed);
        return;
      }
      if !world.wired {
        refusal := Some(ScopeNotWired);
        return;
      }
      ok := LookUp();
      if !ok {
        refusal := Some(StoreFailed);
        return;
      }
      var blocking := DestructiveEntries(aclSnapshot, current.aclBody, world.known);
      NothingBlocks(aclSnapshot, current.aclBody, world.known, blocking);
      PassingPreserves(aclSnapshot, current.aclBody, world.known);
      if |blocking| > 0 {
        refusal := Some(UnmanagedContent);
        return;
      }
      refusal := None;
    }

    /* From renamed files to an activated or rolled-back deployment. */
    method Activate(rendered: Rendered, verified: bool, previousManaged: map<string, string>,
                    ghost before: Files, ghost plan: Plan, ghost passwdBody: string)
      requires Valid() && |deployments| > 0 && Last().status == Applying
      requires TruePlan(before, aclPath, passwdPath, plan, Last().passwdSnapshot)
      requires Last().aclSnapshot == plan.global.snapshot && Last().listenerSnapshots == PlanSnapshots(plan)
      requires disk.files == NewFiles(before, aclPath, passwdPath, RequestFor(plan, passwdBody, Last().passwdSnapshot))
      requires registry == previousManaged
      modifies `deployments, `registry, `registryFaults, `storeFaults, disk
      ensures Valid() && Grown(old(registryFaults), old(storeFaults), old(disk.faults))
      ensures |deployments| == |old(deployments)|
              && deployments[..|deployments| - 1] == old(deployments)[..|deployments| - 1]
      ensures Last() == old(Last()).(status := Last().status)
      ensures Last().status !in {Saved, Failed}
      ensures applier.canReload && Faults() == old(Faults()) ==>
                Last().status == if verified then ActiveVerified else RolledBack
      ensures Last().status == ActiveVerified ==>
                verified && disk.files == old(disk.files) && registry == ListenerMap(rendered.files)
      ensures Last().status == RolledBack ==> SameReads(disk.files, before)
      ensures Last().status == RolledBack && registryFaults == old(registryFaults) ==> registry == previousManaged
      ensures Touches(disk.files, before, plan, passwdBody, Last().passwdSnapshot)
    {
      hide TruePlan, SameReads, PlanSnapshots, OldTargets, PathsOf, SameOutside, NewFiles, RequestFor, ListenerMap,
           NoRepeats, Recorded;
      AppliedFrame(before, aclPath, passwdPath, RequestFor(plan, passwdBody, Last().passwdSnapshot));
      var recorded := RecordManagedACLFiles(rendered);
      if !recorded {
        var _ := RollbackAfterVerifyFailure(previousManaged, before, plan, passwdBody);
        return;
      }
      var pending := UpdateStatus(PendingActivation);
      if !verified || !pending {
        var _ := RollbackAfterVerifyFailure(previousManaged, before, plan, passwdBody);
        return;
      }
      var active := UpdateStatus(ActiveVerified);
      if !active {
        var _ := RollbackAfterVerifyFailure(previousManaged, before, plan, passwdBody);
      }
    }

    /* How a deployment ends when nothing fails. */
    ghost function Outcome(world: World): Status {
      if world.cancelled || !applier.canReload then Failed
      else if world.verified then ActiveVerified
      else RolledBack
    }

    /* Hands the plan to the applier and records what came of it. */
    method HandOver(world: World, plan: Plan, previousManaged: map<string, string>, passwdRendered: string)
      requires Valid() && |deployments| > 0 && Last().status == Applying
      requires world.rendered.Some? && registry == previousManaged
      requires TruePlan(disk.files, aclPath, passwdPath, plan, Last().passwdSnapshot)
      requires Last().aclSnapshot == plan.global.snapshot && Last().listenerSnapshots == PlanSnapshots(plan)
      modifies `deployments, `registry, `registryFaults, `storeFaults, disk
      ensures Valid() && Grown(old(registryFaults), old(storeFaults), old(disk.faults))
      ensures |deployments| == |old(deployments)|
              && deployments[..|deployments| - 1] == old(deployments)[..|deployments| - 1]
      ensures Last() == old(Last()).(status := Last().status) && Last().status != Saved
      ensures Faults() == old(Faults()) ==> Last().status == Outcome(world)
      ensures Last().status == ActiveVerified ==>
                && world.verified
                && disk.files == NewFiles(old(disk.files), aclPath, passwdPath,
                                          RequestFor(plan, passwdRendered, old(Last()).passwdSnapshot))
                && registry == ListenerMap(world.rendered.value.files)
      ensures Last().status in {Failed, RolledBack} ==> SameReads(disk.files, old(disk.files))
      ensures Last().status == Failed ==> registry == old(registry)
      ensures Last().status == RolledBack && registryFaults == old(registryFaults) ==> registry == old(registry)
      ensures Touches(disk.files, old(disk.files), plan, passwdRendered, Last().passwdSnapshot)
    {
      hide NewFiles, OldFiles, SameOutside, OldTargets, PathsOf, ListenerMap, NoRepeats, Recorded, PlanSnapshots,
           RequestFor, TruePlan, SameReads;
      ghost var before := disk.files;
      SameReadsSelf(before);
      RestoreFrame(before, aclPath, passwdPath, RequestFor(plan, passwdRendered, Last().passwdSnapshot));
      var outcome := applier.Apply(world.cancelled, RequestFor(plan, passwdRendered, Last().passwdSnapshot));
      if outcome != Applied {
        RestoredReads(before, aclPath, passwdPath, plan, passwdRendered, Last().passwdSnapshot);
        var _ := UpdateStatus(if outcome == RollbackFailed then RollbackFailedStatus else Failed);
        return;
      }
      Activate(world.rendered.value, world.verified, previousManaged, before, plan, passwdRendered);
    }

    /* Consumes the revision of an apply. One that is consumed now has not been reached before. */
    method ConsumeOnce(id: string) returns (ok: bool)
      requires Valid() && id in revisions
      modifies `revisions, `storeFaults
      ensures Valid() && storeFaults >= old(storeFaults)
      ensures ok <==> !old(revisions)[id].consumed && storeFaults == old(storeFaults)
      ensures revisions == if ok then old(revisions)[id := old(revisions)[id].(consumed := true)] else old(revisions)
      ensures ok ==> id !in reached
    {
      hide NoRepeats, Recorded;
      RecordedWhenConsumed(revisions[id], seen[id], aclPath, passwdPath, dir);
      ok := ConsumePreviewRevision(id);
    }

    ghost method Reach(id: string)
      requires Valid() && id !in reached && id in revisions && revisions[id].consumed
      modifies `reached
      ensures Valid() && reached == old(reached) + [id]
    {
      hide NoRepeats, Recorded;
      NewReach(reached, id);
      reached := reached + [id];
    }

    /* Consumes the revision and hands its plan to the applier. */
    method Execute(id: string, world: World, plan: Plan)
      requires Valid() && |deployments| > 0 && Last().status == Applying
      requires world.rendered.Some? && id in revisions
      requires TruePlan(disk.files, aclPath, passwdPath, plan, Last().passwdSnapshot)
      requires Last().aclSnapshot == plan.global.snapshot && Last().listenerSnapshots == PlanSnapshots(plan)
      modifies `revisions, `deployments, `registry, `registryFaults, `storeFaults, `reached, disk
      ensures Valid() && Grown(old(registryFaults), old(storeFaults), old(disk.faults))
      ensures reached == old(reached) || reached == old(reached) + [id]
      ensures |deployments| == |old(deployments)|
              && deployments[..|deployments| - 1] == old(deployments)[..|deployments| - 1]
      ensures Last() == old(Last()).(status := Last().status) && Last().status != Saved
      ensures !old(revisions)[id].consumed && Faults() == old(Faults()) ==> Last().status == Outcome(world)
      ensures revisions == old(revisions) || revisions == old(revisions)[id := old(revisions)[id].(consumed := true)]
      ensures Last().status == ActiveVerified ==>
                && world.verified && reached == old(reached) + [id]
                && disk.files == NewFiles(old(disk.files), aclPath, passwdPath,
                                          RequestFor(plan, old(revisions)[id].passwdRendered, old(Last()).passwdSnapshot))
                && registry == ListenerMap(world.rendered.value.files)
      ensures Last().status in {Failed, RolledBack} ==> SameReads(disk.files, old(disk.files))
      ensures Last().status == Failed ==> registry == old(registry)
      ensures Last().status == RolledBack && registryFaults == old(registryFaults) ==> registry == old(registry)
      ensures Touches(disk.files, old(disk.files), plan, old(revisions)[id].passwdRendered, Last().passwdSnapshot)
    {
      hide NewFiles, OldFiles, SameOutside, OldTargets, PathsOf, ListenerMap, NoRepeats, Recorded, PlanSnapshots,
           RequestFor, TruePlan, SameReads, Valid, Outcome;
      ghost var before := disk.files;
      SameReadsSelf(before);
      RestoreFrame(before, aclPath, passwdPath, RequestFor(plan, revisions[id].passwdRendered, Last().passwdSnapshot));
      var passwdRendered := revisions[id].passwdRendered;
      var ok := ConsumeOnce(id);
      if !ok {
        var _ := UpdateStatus(Failed);
        return;
      }
      var listed, previousManaged := ListManaged();
      if !listed {
        return;
      }
      Reach(id);
      HandOver(world, plan, previousManaged, passwdRendered);
    }

    /* Records a deployment, carries it out and notes a render verified active. */
    method Carry(id: string, world: World, plan: Plan, aclSnapshot: string, passwdSnapshot: string) returns (recorded: bool)
      requires Valid() && world.rendered.Some? && id in revisions
      requires TruePlan(disk.files, aclPath, passwdPath, plan, passwdSnapshot) && aclSnapshot == plan.global.snapshot
      modifies this, disk
      ensures Valid() && Grown(old(registryFaults), old(storeFaults), old(disk.faults)) && seen == old(seen)
      ensures Faults() == old(Faults()) ==> recorded
      ensures !recorded ==>
                disk.files == old(disk.files) && registry == old(registry) && deployments == old(deployments)
                && revisions == old(revisions) && reached == old(reached)
      ensures reached == old(reached) || reached == old(reached) + [id]
      ensures recorded ==>
                && |deployments| == |old(deployments)| + 1 && deployments[..|old(deployments)|] == old(deployments)
                && Last().revisionId == id
                && (revisions == old(revisions) || revisions == old(revisions)[id := old(revisions)[id].(consumed := true)])
      ensures recorded && !old(revisions)[id].consumed && Faults() == old(Faults()) ==> Last().status == Outcome(world)
      ensures recorded && Last().status == ActiveVerified ==>
                && world.verified && reached == old(reached) + [id]
                && disk.files == NewFiles(old(disk.files), aclPath, passwdPath,
                                          RequestFor(plan, old(revisions)[id].passwdRendered, passwdSnapshot))
                && registry == ListenerMap(world.rendered.value.files)
      ensures activated == if recorded && Last().status == ActiveVerified
                           then old(activated) + [ListenerMap(world.rendered.value.files)] else old(activated)
      ensures recorded && Last().status in {Saved, Failed, RolledBack} ==> SameReads(disk.files, old(disk.files))
      ensures recorded && Last().status in {Saved, Failed} ==> registry == old(registry)
      ensures recorded && Last().status == RolledBack && registryFaults == old(registryFaults) ==>
                registry == old(registry)
      ensures Touches(disk.files, old(disk.files), plan, old(revisions)[id].passwdRendered, passwdSnapshot)
    {
      hide NewFiles, OldFiles, SameOutside, OldTargets, PathsOf, ListenerMap, NoRepeats, Recorded, PlanSnapshots,
           RequestFor, TruePlan, SameReads, Valid, Outcome;
      SameReadsSelf(disk.files);
      RestoreFrame(disk.files, aclPath, passwdPath, RequestFor(plan, revisions[id].passwdRendered, passwdSnapshot));
      recorded := InsertDeployment(Deployment(id, Saved, aclSnapshot, passwdSnapshot, PlanSnapshots(plan)));
      if !recorded {
        return;
      }
      var ok := UpdateStatus(Applying);
      if !ok {
        return;
      }
      Execute(id, world, plan);
      if Last().status == ActiveVerified {
        activated := activated + [ListenerMap(world.rendered.value.files)];
      }
    }

    /* The preview of the revision saw these files, at most an hour ago. */
    ghost predicate AsSeen(id: string, now: nat, files: Files)
      reads `seen
    {
      && id in seen && now <= seen[id].now + 3600
      && Reads(files, aclPath) == Reads(seen[id].files, aclPath)
      && Reads(files, passwdPath) == Reads(seen[id].files, passwdPath)
    }

    lemma SeenWithinTheHour(id: string, world: World)
      requires Valid() && Acceptable(id, world)
      ensures AsSeen(id, world.now, disk.files)
    {
      hide NoRepeats, StoredFrom, SameRender, Preserves, Reads;
      assert Recorded(revisions[id], seen[id], aclPath, passwdPath, dir);
    }

    /* Applies a preview revision. The final status of the recorded deployment, whatever failed on the
       way, says what the disk holds. */
    method ApplyRevision(id: string, world: World) returns (result: ApplyResult, plan: Plan)
      requires Valid()
      requires world.rendered.Some? ==> RenderedFor(world.rendered.value, aclPath, dir)
      modifies this, disk
      ensures Valid() && Grown(old(registryFaults), old(storeFaults), old(disk.faults)) && seen == old(seen)
      // A refused apply leaves no trace.
      ensures result.Refused? ==>
                disk.files == old(disk.files) && registry == old(registry) && deployments == old(deployments)
                && revisions == old(revisions) && reached == old(reached)
      // Without a fault an apply is refused exactly when the revision cannot be applied, and for the
      // right reason; a refusal that is not a failed store is always right.
      ensures result.Finished? ==> old(Acceptable(id, world)) && AsSeen(id, world.now, old(disk.files))
      ensures result.Refused? && (result.reason != StoreFailed || Faults() == old(Faults())) ==>
                old(Justified(result.reason, id, world))
      ensures Faults() == old(Faults()) ==> (result.Finished? <==> old(Acceptable(id, world)))
      // A revision reaches the applier at most once, and only as the revision of the new deployment.
      ensures reached == old(reached) || reached == old(reached) + [id]
      ensures result.Finished? ==>
                && |deployments| == |old(deployments)| + 1 && deployments[..|old(deployments)|] == old(deployments)
                && Last().revisionId == id
                && id in old(revisions) && world.rendered.Some? && revisions.Keys == old(revisions).Keys
                && (forall k :: k in revisions && k != id ==> revisions[k] == old(revisions)[k])
                && revisions[id] == old(revisions)[id].(consumed := revisions[id].consumed)
                && |world.rendered.value.files| >= 1
                && IsPlan(plan, old(disk.files), world.rendered.value,
                          RevisionBodies(aclPath, old(revisions)[id].aclRendered, old(revisions)[id].listenerRendered), old(registry))
      // Without a fault it ends as the request, the reload and the verifier decide.
      ensures result.Finished? && Faults() == old(Faults()) ==> Last().status == Outcome(world)
      // Verified means served from exactly the planned files.
      ensures result.Finished? && Last().status == ActiveVerified ==>
                && world.verified && reached == old(reached) + [id]
                && disk.files == NewFiles(old(disk.files), aclPath, passwdPath,
                     RequestFor(plan, old(revisions)[id].passwdRendered, Reads(old(disk.files), passwdPath)))
                && registry == ListenerMap(world.rendered.value.files)
      ensures activated == if result.Finished? && Last().status == ActiveVerified
                           then old(activated) + [ListenerMap(world.rendered.value.files)] else old(activated)
      // Failed and rolled back mean every file reads as before.
      ensures result.Finished? && Last().status in {Saved, Failed, RolledBack} ==> SameReads(disk.files, old(disk.files))
      ensures result.Finished? && Last().status in {Saved, Failed} ==> registry == old(registry)
      ensures result.Finished? && Last().status == RolledBack && registryFaults == old(registryFaults) ==>
                registry == old(registry)
      // However it ends, only the planned files and the password file can differ.
      ensures result.Finished? ==>
                Touches(disk.files, old(disk.files), plan, old(revisions)[id].passwdRendered, Reads(old(disk.files), passwdPath))
    {
      hide RenderedFor, FilesHash, IsPlan, Preserves, RevisionBodies, NewFiles, OldFiles, SameOutside, OldTargets, PathsOf,
           ListenerMap, NoRepeats, Recorded, PlanSnapshots, RequestFor, TruePlan, SameReads;
      var refusal, aclSnapshot, passwdSnapshot;
      refusal, plan, aclSnapshot, passwdSnapshot := CheckRevision(id, world);
      if refusal.Some? {
        result := Refused(refusal.value);
        return;
      }
      SeenWithinTheHour(id, world);
      TruePlanOf(plan, disk.files, world.rendered.value,
                 RevisionBodies(aclPath, revisions[id].aclRendered, revisions[id].listenerRendered),
                 registry, aclPath, passwdPath, dir, passwdSnapshot);
      var recorded := Carry(id, world, plan, aclSnapshot, passwdSnapshot);
      result := if recorded then Finished else Refused(StoreFailed);
    }

    /* A preview and, within the hour, its apply. When nothing changes in between, nothing fails, the
       rules reach the broker and nothing of others is lost, the render goes live. */
    method PreviewAndApply(id: string, preview: World, apply: World)
      requires Valid() && preview.rendered.Some? && RenderedFor(preview.rendered.value, aclPath, dir)
      requires apply.rendered == preview.rendered && apply.wired && !apply.cancelled && apply.verified
      requires id !in revisions && apply.now <= preview.now + 3600 && applier.canReload
      requires Preserves(Reads(disk.files, aclPath), preview.rendered.value.aclBody, apply.known)
      modifies this, disk
      ensures Valid() && Grown(old(registryFaults), old(storeFaults), old(disk.faults))
      ensures Faults() == old(Faults()) ==>
                && |deployments| == |old(deployments)| + 1 && Last().revisionId == id && Last().status == ActiveVerified
                && registry == ListenerMap(apply.rendered.value.files)
                && activated == old(activated) + [ListenerMap(apply.rendered.value.files)]
    {
      hide RenderedFor, Preserves, ListenerMap, Valid, NoRepeats, IsPlan, RevisionBodies, Reads, FilesHash, NewFiles, Touches;
      var stored := Preview(id, preview);
      if stored {
        assert SameRender(id, apply.rendered.value) && Undisturbed(id) && Live(id, apply.now);
        assert Acceptable(id, apply);
      }
      var result, _ := ApplyRevision(id, apply);
    }

    // ---------------------------------------------------------------- whole runs

    /* The listener files in force: those of the render last verified active. */
    ghost function InForce(initial: map<string, string>, since: nat): map<string, string>
      requires since <= |activated|
      reads `activated
    {
      if since < |activated| then activated[|activated| - 1] else initial
    }

    /* The paths of the listener files owned at the start or activated since. */
    ghost function Owned(initial: map<string, string>, since: nat): set<string>
      requires since <= |activated|
      reads `activated
    {
      initial.Keys + PathsOfRenders(activated[since..])
    }

    /* The registry names exactly the listener files in force, and every other one owned at the
       start or since reads as nothing. */
    ghost predicate Tidy(initial: map<string, string>, since: nat)
      requires since <= |activated|
      reads `activated, `registry, disk`files
    {
      && registry == InForce(initial, since)
      && registry.Keys <= Owned(initial, since)
      && NothingLeft(disk.files, Owned(initial, since), registry, aclPath, passwdPath)
    }

    /* One apply of a run. */
    method ApplyOne(id: string, world: World, ghost initial: map<string, string>, ghost since: nat)
      requires Valid() && since <= |activated|
      requires world.rendered.Some? ==> RenderedFor(world.rendered.value, aclPath, dir)
      modifies this, disk
      ensures Valid() && Grown(old(registryFaults), old(storeFaults), old(disk.faults))
      ensures old(reached) <= reached && old(deployments) <= deployments && old(activated) <= activated
      ensures (old(Tidy(initial, since)) && registryFaults == old(registryFaults)
               && Settled(deployments[|old(deployments)|..])) ==> Tidy(initial, since)
    {
      hide RenderedFor, Recorded, NoRepeats, SameReads, NewFiles, RequestFor, IsPlan, Preserves, FilesHash, RevisionBodies,
           ListenerMap, SameOutside, PathsOf, OldTargets, Reads, NothingLeft, Touches, PathsOfRenders;
      var result, plan := ApplyRevision(id, world);
      if result.Finished? {
        assert deployments[|old(deployments)|..] == [Last()];
        assert Last() in [Last()];
        if old(Tidy(initial, since)) && registryFaults == old(registryFaults) && Settled([Last()]) {
          if Last().status == ActiveVerified {
            var r := world.rendered.value;
            assert activated[since..] == old(activated)[since..] + [ListenerMap(r.files)];
            OwnedSnoc(old(activated)[since..], ListenerMap(r.files));
            ActivationLeavesNothing(old(disk.files), disk.files, old(Owned(initial, since)), old(registry), plan, r,
                                    RevisionBodies(aclPath, old(revisions)[id].aclRendered, old(revisions)[id].listenerRendered),
                                    aclPath, passwdPath, dir, old(revisions)[id].passwdRendered, Reads(old(disk.files), passwdPath));
            assert Owned(initial, since) == old(Owned(initial, since)) + ListenerMap(r.files).Keys;
            assert registry == InForce(initial, since);
            assert registry.Keys <= Owned(initial, since);
          } else {
            SameReadsLeaveNothing(old(disk.files), disk.files, Owned(initial, since), registry, aclPath, passwdPath);
          }
        }
      }
    }

    /* Any sequence of previews and applies, whatever fails. While the registry's own writes work and
       every recorded deployment ends verified, rolled back or failed, the registry names exactly the
       listener files in force, and no other listener file ever owned is left with content. */
    method Run(operations: seq<Operation>)
      requires Valid()
      requires forall o :: o in operations && o.world.rendered.Some? ==> RenderedFor(o.world.rendered.value, aclPath, dir)
      modifies this, disk
      ensures Valid()
      ensures old(reached) <= reached && old(deployments) <= deployments && old(activated) <= activated
      ensures registryFaults == old(registryFaults) && Settled(deployments[|old(deployments)|..]) ==>
                Tidy(old(registry), |old(activated)|)
    {
      hide RenderedFor, Recorded, NoRepeats, Tidy;
      TidyAtFirst();
      for k := 0 to |operations|
        invariant Valid()
        invariant old(reached) <= reached && old(deployments) <= deployments && old(activated) <= activated
        invariant registryFaults >= old(registryFaults)
        invariant registryFaults == old(registryFaults) && Settled(deployments[|old(deployments)|..]) ==>
                    Tidy(old(registry), |old(activated)|)
      {
        var o := operations[k];
        assert o in operations;
        if o.PreviewOperation? {
          var _ := Preview(o.id, o.world);
        } else {
          ghost var before := deployments;
          ApplyOne(o.id, o.world, old(registry), |old(activated)|);
          SettledSplit(deployments, |old(deployments)|, |before|);
        }
      }
    }

    lemma TidyAtFirst()
      ensures Tidy(registry, |activated|)
    {
      assert activated[|activated|..] == [];
    }
  }

  /* Every deployment ended in a state that says what the disk holds. */
  ghost predicate Settled(deployments: seq<Deployment>) {
    forall d :: d in deployments ==> d.status in {ActiveVerified, RolledBack, Failed, Saved}
  }

  lemma SettledSplit(deployments: seq<Deployment>, a: nat, b: nat)
    requires a <= b <= |deployments|
    ensures Settled(deployments[a..]) <==> Settled(deployments[..b][a..]) && Settled(deployments[b..])
  {
    assert deployments[a..] == deployments[..b][a..] + deployments[b..];
    assert forall d :: d in deployments[a..] <==> d in deployments[..b][a..] || d in deployments[b..];
  }

  // ---------------------------------------------------------------- what no render names any more

  function PathsOfRenders(renders: seq<map<string, string>>): set<string> {
    if renders == [] then {} else PathsOfRenders(renders[..|renders| - 1]) + renders[|renders| - 1].Keys
  }

  lemma OwnedSnoc(renders: seq<map<string, string>>, r: map<string, string>)
    ensures PathsOfRenders(renders + [r]) == PathsOfRenders(renders) + r.Keys
  {
    assert (renders + [r])[..|renders|] == renders;
  }

  /* An owned listener file that is not in force reads as nothing. The broker-wide file and the
     password file are written by every apply, whatever else had their paths. */
  ghost predicate NothingLeft(files: Files, owned: set<string>, inForce: map<string, string>, aclPath: string, passwdPath: string) {
    forall p :: p in owned && p !in inForce && p != aclPath && p != passwdPath ==> Reads(files, p) == ""
  }

  lemma SameReadsLeaveNothing(a: Files, b: Files, owned: set<string>, inForce: map<string, string>, aclPath: string, passwdPath: string)
    requires NothingLeft(a, owned, inForce, aclPath, passwdPath) && SameReads(b, a)
    ensures NothingLeft(b, owned, inForce, aclPath, passwdPath)
  {
    hide Reads;
  }

  lemma {:induction false} ListenerMapKeys(files: seq<FileRender>, path: string)
    ensures path in ListenerMap(files) <==> exists i :: 0 <= i < |files| && files[i].scope == Rules.Listener && files[i].path == path
  {
    if files != [] {
      var n := |files| - 1;
      ListenerMapKeys(files[..n], path);
      if i :| 0 <= i < n && files[i].scope == Rules.Listener && files[i].path == path {
        assert files[..n][i] == files[i];
      }
      if path in ListenerMap(files[..n]) {
        var i :| 0 <= i < n && files[..n][i].scope == Rules.Listener && files[..n][i].path == path;
        assert files[i].path == path;
      }
    }
  }

  /* A path in a render is that of the broker-wide file or of a listener file in force. */
  lemma RenderedPath(r: Rendered, aclPath: string, dir: string, path: string)
    requires RenderedFor(r, aclPath, dir) && InRender(path, r.files)
    ensures path == aclPath || path in ListenerMap(r.files)
  {
    hide ListenerMap, Rules.ValidListenerId, ListenerACLPath;
    ListenerMapKeys(r.files, path);
  }

  lemma WrittenPaths(aclPath: string, passwdPath: string, plan: Plan, files: Files, r: Rendered, bodies: map<string, string>,
                     registry: map<string, string>, dir: string, passwdBody: string, passwdSnapshot: string, path: string)
    requires RenderedFor(r, aclPath, dir) && IsPlan(plan, files, r, bodies, registry)
    requires path in PathsOf(NewTargets(aclPath, passwdPath, RequestFor(plan, passwdBody, passwdSnapshot)))
    ensures path == passwdPath || InRender(path, r.files)
  {
    hide NewTargets, PlanFile, Rules.ValidListenerId, ListenerACLPath;
    var t :| t in NewTargets(aclPath, passwdPath, RequestFor(plan, passwdBody, passwdSnapshot)) && t.path == path;
    PlanGlobalPath(plan, files, r, bodies, registry, aclPath, dir);
    PlanTargets(aclPath, passwdPath, plan, passwdBody, passwdSnapshot, t);
    if path != passwdPath {
      var f :| f in [plan.global] + plan.listener && t == Target(f.path, f.body);
      var i := PlannedFile(plan, files, r, bodies, registry, f);
      PlannedPath(r.files[i], files, bodies);
    }
  }

  lemma PlannedPath(f: FileRender, files: Files, bodies: map<string, string>)
    ensures PlanFile(f, files, bodies).path == f.path
  {
  }

  /* An activation keeps the promise: what the render dropped is removed, and what was dropped
     before is not written again. */
  lemma ActivationLeavesNothing(before: Files, after: Files, owned: set<string>, registry: map<string, string>, plan: Plan,
                                r: Rendered, bodies: map<string, string>, aclPath: string, passwdPath: string, dir: string,
                                passwdBody: string, passwdSnapshot: string)
    requires NothingLeft(before, owned, registry, aclPath, passwdPath)
    requires RenderedFor(r, aclPath, dir) && IsPlan(plan, before, r, bodies, registry)
    requires after == NewFiles(before, aclPath, passwdPath, RequestFor(plan, passwdBody, passwdSnapshot))
    ensures NothingLeft(after, owned + ListenerMap(r.files).Keys, ListenerMap(r.files), aclPath, passwdPath)
  {
    hide NewFiles, NewTargets, InRender, ListenerMap, RenderedFor, PlanFile, PathsOf;
    var req := RequestFor(plan, passwdBody, passwdSnapshot);
    forall p | p in owned && p !in ListenerMap(r.files) && p != aclPath && p != passwdPath
      ensures Reads(after, p) == ""
    {
      if InRender(p, r.files) {
        RenderedPath(r, aclPath, dir, p);
      }
      if p in registry {
        assert p in PathSet(plan.remove);
        AppliedMeans(before, aclPath, passwdPath, req);
      } else {
        if p in PathsOf(NewTargets(aclPath, passwdPath, req)) {
          WrittenPaths(aclPath, passwdPath, plan, before, r, bodies, registry, dir, passwdBody, passwdSnapshot, p);
        }
        assert p !in PathSet(plan.remove);
        UntouchedPath(before, aclPath, passwdPath, req, p);
      }
    }
  }

  /* A path that is neither written nor retired keeps what it held. */
  lemma UntouchedPath(files: Files, aclPath: string, passwdPath: string, req: ApplyRequest, path: string)
    requires path !in PathsOf(NewTargets(aclPath, passwdPath, req))
    requires forall f :: f in req.removedFiles ==> f.path != path
    ensures Reads(NewFiles(files, aclPath, passwdPath, req), path) == Reads(files, path)
  {
    hide NewTargets, WriteAll, RemoveAll, PathsOf;
    var targets := NewTargets(aclPath, passwdPath, req);
    WriteOutside(files, targets);
    var written := WriteAll(files, targets);
    assert path in written - PathsOf(targets) <==> path in files - PathsOf(targets);
    assert path in files ==> (written - PathsOf(targets))[path] == (files - PathsOf(targets))[path];
    RemovedGone(written, req.removedFiles, path);
  }

  datatype Operation = PreviewOperation(id: string, world: World) | ApplyOperation(id: string, world: World)

  /* The bodies an apply hands over are the previewed ones exactly when the lookups by path find the
     right bodies; outside the working directory, when no listener file has the path of the
     broker-wide file with a body of its own. */
  lemma AppliesWhatWasPreviewed(revision: Revision, current: Rendered, plan: Plan, files: Files,
                                registry: map<string, string>, aclPath: string, dir: string, preview: Rendered)
    requires StoredFrom(revision, preview, aclPath, dir) && RenderedFor(current, aclPath, dir)
    requires FilesHash(current.files) == revision.filesHash && current.aclBody == revision.renderedACL
    requires IsPlan(plan, files, current, RevisionBodies(aclPath, revision.aclRendered, revision.listenerRendered), registry)
    requires NulFree(preview.files) && NulFree(current.files) && DirectoryOf(dir, aclPath)
    ensures revision.passwdRendered == preview.passwdBody
    ensures HandsOver(plan, preview) <==> LookupsAgree(preview, aclPath)
    ensures dir != "." ==> (HandsOver(plan, preview) <==> ListenersApart(preview, aclPath))
  {
    hide IsPlan, HandsOver, NulFree, FilesHash, ListenerBodies, RevisionBodies, RenderedFor, LookupsAgree, ListenersApart;
    PlanHandsOverPreview(plan, files, preview, current, aclPath, dir, registry);
    if dir != "." {
      LookupsOutside(preview, aclPath, dir);
    }
  }

  predicate Holds(files: Files, path: string, body: string) {
    path in files && files[path] == body
  }

  /* Every file of the plan and the password file are on disk with their bodies. */
  predicate ServesPlan(files: Files, plan: Plan, passwdPath: string, passwdBody: string) {
    && (forall f :: f in [plan.global] + plan.listener ==> Holds(files, f.path, f.body))
    && Holds(files, passwdPath, passwdBody)
  }

  /* The password file is neither at the path of an ACL file with another body nor at the path of
     one that is retired. */
  predicate PasswdApart(plan: Plan, passwdPath: string, passwdBody: string) {
    && (forall f :: f in [plan.global] + plan.listener && f.path == passwdPath ==> f.body == passwdBody)
    && (forall f :: f in plan.remove ==> f.path != passwdPath)
  }

  /* Two ACL files of a plan never want different bodies at one path: what is looked up there is one
     body, and listeners with different ids have different paths. */
  lemma PlanFilesAgree(plan: Plan, files: Files, rendered: Rendered, aclRendered: string, listenerRendered: map<string, string>,
                       registry: map<string, string>, aclPath: string, dir: string, f: ACLFile, g: ACLFile)
    requires RenderedFor(rendered, aclPath, dir)
    requires IsPlan(plan, files, rendered, RevisionBodies(aclPath, aclRendered, listenerRendered), registry)
    requires f in [plan.global] + plan.listener && g in [plan.global] + plan.listener && f.path == g.path
    ensures f.body == g.body
    ensures f.path !in PathSet(plan.remove)
  {
    hide Reads, Rules.ValidListenerId, RevisionBodies, PathSet, Strings.Less, ListenerACLPath;
    var bodies := RevisionBodies(aclPath, aclRendered, listenerRendered);
    var i := PlannedFile(plan, files, rendered, bodies, registry, f);
    var j := PlannedFile(plan, files, rendered, bodies, registry, g);
    assert InRender(f.path, rendered.files);
    if f.path !in bodies {
      BroadBodyFound(aclPath, aclRendered, listenerRendered);
      ListenerPathInjective(dir, rendered.files[i].listenerId, rendered.files[j].listenerId);
    }
  }

  lemma BroadBodyFound(aclPath: string, aclRendered: string, listenerRendered: map<string, string>)
    ensures aclPath in RevisionBodies(aclPath, aclRendered, listenerRendered)
  {
  }

  lemma PlannedFile(plan: Plan, files: Files, rendered: Rendered, bodies: map<string, string>, registry: map<string, string>,
                    f: ACLFile) returns (i: nat)
    requires |rendered.files| >= 1 && IsPlan(plan, files, rendered, bodies, registry)
    requires f in [plan.global] + plan.listener
    ensures i < |rendered.files| && f == PlanFile(rendered.files[i], files, bodies)
  {
    hide PlanFile, InRender;
    if f == plan.global {
      i := 0;
    } else {
      var k :| 0 <= k < |plan.listener| && plan.listener[k] == f;
      i := k + 1;
    }
  }

  ghost predicate IsTarget(plan: Plan, t: Target, passwdPath: string, passwdBody: string) {
    || t == Target(passwdPath, passwdBody)
    || exists f :: f in [plan.global] + plan.listener && t == Target(f.path, f.body)
  }

  lemma PlanTargets(aclPath: string, passwdPath: string, plan: Plan, passwdBody: string, passwdSnapshot: string, t: Target)
    requires plan.global.path == aclPath
    ensures t in NewTargets(aclPath, passwdPath, RequestFor(plan, passwdBody, passwdSnapshot))
       <==> IsTarget(plan, t, passwdPath, passwdBody)
  {
    var req := RequestFor(plan, passwdBody, passwdSnapshot);
    var written := ACLFiles(aclPath, req);
    var planned := [plan.global] + plan.listener;
    assert |written| == |planned| && forall i :: 0 <= i < |written| ==>
      written[i].path == planned[i].path && written[i].body == planned[i].body;
    if f :| f in planned && t == Target(f.path, f.body) {
      var i :| 0 <= i < |planned| && planned[i] == f;
      assert Bodies(written)[i] == t;
    }
    if t in Bodies(written) {
      var i :| 0 <= i < |written| && Bodies(written)[i] == t;
      assert planned[i] in planned;
    }
  }

  /* An activated deploy removes every file the render dropped, and leaves every body it handed over
     on disk exactly when the password file is apart from the ACL files. */
  lemma ActivatedFiles(before: Files, after: Files, aclPath: string, passwdPath: string, dir: string, plan: Plan,
                       rendered: Rendered, aclRendered: string, listenerRendered: map<string, string>,
                       registry: map<string, string>, passwdBody: string, passwdSnapshot: string)
    requires RenderedFor(rendered, aclPath, dir)
    requires IsPlan(plan, before, rendered, RevisionBodies(aclPath, aclRendered, listenerRendered), registry)
    requires after == NewFiles(before, aclPath, passwdPath, RequestFor(plan, passwdBody, passwdSnapshot))
    ensures ServesPlan(after, plan, passwdPath, passwdBody) <==> PasswdApart(plan, passwdPath, passwdBody)
    ensures forall p :: p in registry && !InRender(p, rendered.files) ==> p !in after
  {
    hide InRender, NewFiles, NewTargets, RevisionBodies, PlanFile, RenderedFor;
    var req := RequestFor(plan, passwdBody, passwdSnapshot);
    var targets := NewTargets(aclPath, passwdPath, req);
    var bodies := RevisionBodies(aclPath, aclRendered, listenerRendered);
    PlanGlobalPath(plan, before, rendered, bodies, registry, aclPath, dir);
    AppliedMeans(before, aclPath, passwdPath, req);
    forall p | p in registry && !InRender(p, rendered.files) ensures p !in after {
      assert p in PathSet(plan.remove);
    }
    forall t ensures t in targets <==> IsTarget(plan, t, passwdPath, passwdBody) {
      PlanTargets(aclPath, passwdPath, plan, passwdBody, passwdSnapshot, t);
    }
    forall f, g | f in [plan.global] + plan.listener && g in [plan.global] + plan.listener && f.path == g.path
      ensures f.body == g.body && f.path !in PathSet(plan.remove)
    {
      PlanFilesAgree(plan, before, rendered, aclRendered, listenerRendered, registry, aclPath, dir, f, g);
    }
    ServedExactly(after, plan, targets, passwdPath, passwdBody);
    CompatibleExactly(plan, targets, passwdPath, passwdBody);
  }

  lemma PlanGlobalPath(plan: Plan, files: Files, rendered: Rendered, bodies: map<string, string>, registry: map<string, string>,
                       aclPath: string, dir: string)
    requires RenderedFor(rendered, aclPath, dir) && IsPlan(plan, files, rendered, bodies, registry)
    ensures plan.global.path == aclPath
  {
    hide InRender;
  }

  ghost predicate TargetsOf(plan: Plan, targets: seq<Target>, passwdPath: string, passwdBody: string) {
    forall t :: t in targets <==> IsTarget(plan, t, passwdPath, passwdBody)
  }

  lemma ServedExactly(after: Files, plan: Plan, targets: seq<Target>, passwdPath: string, passwdBody: string)
    requires TargetsOf(plan, targets, passwdPath, passwdBody)
    ensures ServesPlan(after, plan, passwdPath, passwdBody)
       <==> forall t :: t in targets ==> t.path in after && after[t.path] == t.content
  {
    forall f | f in [plan.global] + plan.listener ensures Target(f.path, f.body) in targets {}
    assert Target(passwdPath, passwdBody) in targets;
  }

  lemma CompatibleExactly(plan: Plan, targets: seq<Target>, passwdPath: string, passwdBody: string)
    requires TargetsOf(plan, targets, passwdPath, passwdBody)
    requires forall f, g :: f in [plan.global] + plan.listener && g in [plan.global] + plan.listener && f.path == g.path ==>
               f.body == g.body && f.path !in PathSet(plan.remove)
    ensures Compatible(targets, plan.remove) <==> PasswdApart(plan, passwdPath, passwdBody)
  {
    forall f | f in [plan.global] + plan.listener ensures Target(f.path, f.body) in targets {}
    assert Target(passwdPath, passwdBody) in targets;
  }

  /* A configuration that keeps the two broker-wide paths apart and still loses a file: the password
     file is where the file of listener `x` goes. */
  lemma PasswdPathSample(before: Files, after: Files, rendered: Rendered, plan: Plan, aclRendered: string,
                         listenerRendered: map<string, string>, registry: map<string, string>,
                         passwdBody: string, passwdSnapshot: string)
    requires RenderedFor(rendered, "/e/acl", "/e") && |rendered.files| == 2 && rendered.files[1].listenerId == "x"
    requires IsPlan(plan, before, rendered, RevisionBodies("/e/acl", aclRendered, listenerRendered), registry)
    requires plan.listener[0].body != passwdBody
    requires after == NewFiles(before, "/e/acl", "/e/acl.x", RequestFor(plan, passwdBody, passwdSnapshot))
    ensures !ServesPlan(after, plan, "/e/acl.x", passwdBody)
  {
    hide InRender, RevisionBodies, Reads, NewFiles, NewTargets;
    assert "/e" + "/acl." + "x" == "/e/acl.x";
    assert plan.listener[0] in [plan.global] + plan.listener;
    ActivatedFiles(before, after, "/e/acl", "/e/acl.x", "/e", plan, rendered, aclRendered, listenerRendered, registry,
                   passwdBody, passwdSnapshot);
  }

  lemma SameReadsSelf(files: Files)
    ensures SameReads(files, files)
  {
  }

  lemma RecordedAtPreview(rev: Revision, seen: Seen, aclPath: string, passwdPath: string, dir: string)
    requires RenderedFor(seen.rendered, aclPath, dir)
    requires var r := seen.rendered;
             rev == Revision(Reads(seen.files, aclPath), Reads(seen.files, passwdPath), r.aclBody, r.passwdBody,
                             FilesHash(r.files), r.aclBody, r.passwdBody, ListenerBodies(r.files), seen.now, rev.consumed)
    ensures Recorded(rev, seen, aclPath, passwdPath, dir) && StoredFrom(rev, seen.rendered, aclPath, dir)
  {
    hide RenderedFor, FilesHash, ListenerBodies, Reads;
  }

  lemma RecordedWhenConsumed(rev: Revision, seen: Seen, aclPath: string, passwdPath: string, dir: string)
    requires Recorded(rev, seen, aclPath, passwdPath, dir)
    ensures Recorded(rev.(consumed := true), seen, aclPath, passwdPath, dir)
  {
    hide RenderedFor, FilesHash, ListenerBodies, Reads;
  }

  lemma NewReach(reached: seq<string>, id: string)
    requires NoRepeats(reached) && id !in reached
    ensures NoRepeats(reached + [id])
  {
  }

  lemma TruePlanOf(plan: Plan, files: Files, rendered: Rendered, bodies: map<string, string>, registry: map<string, string>,
                   aclPath: string, passwdPath: string, dir: string, passwdSnapshot: string)
    requires RenderedFor(rendered, aclPath, dir) && IsPlan(plan, files, rendered, bodies, registry)
    requires passwdSnapshot == Reads(files, passwdPath)
    ensures TruePlan(files, aclPath, passwdPath, plan, passwdSnapshot)
    ensures plan.global.snapshot == Reads(files, aclPath)
  {
    hide InRender, Reads;
  }

  lemma FilesOfRender(r: Rendered, aclPath: string, dir: string)
    requires RenderedFor(r, aclPath, dir)
    ensures |r.files| >= 1 && r.files[0].path == aclPath
  {
  }

  lemma NothingBlocks(oldBody: string, newBody: string, known: set<string>, blocking: seq<string>)
    requires forall k :: k in blocking <==>
               && k in Keys(ParseDocument(oldBody).entries) && k !in Keys(ParseDocument(newBody).entries)
               && Blocks(k, CarriesContent(ParseDocument(oldBody).entries), known)
    ensures Passes(oldBody, newBody, known) <==> blocking == []
  {
    hide Keys, ParseDocument, Blocks, CarriesContent;
    if blocking != [] {
      assert blocking[0] in blocking;
    }
  }
}
