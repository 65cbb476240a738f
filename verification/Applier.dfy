/**
 The transactional apply (`FileApplier.Apply`, internal/mosquitto/applier.go).

 All bodies are staged before the first rename; any later failure restores every touched file from
 the snapshots of the request. The contracts below hold for every pattern of primitive failures.
 */
module Applier {
  import opened Disks

  datatype ACLFile = ACLFile(path: string, body: string, snapshot: string)

  datatype ApplyRequest = ApplyRequest(
    aclBody: string, aclSnapshot: string,
    listenerFiles: seq<ACLFile>, removedFiles: seq<ACLFile>,
    passwdBody: string, passwdSnapshot: string)

  /* `Restored` is ErrApplyRestored, `RollbackFailed` is ErrRollbackFailed. */
  datatype Outcome = Applied | Cancelled | ReloadNotSignaled | StageFailed | Restored | RollbackFailed

  /* A file to write, with its content. */
  datatype Target = Target(path: string, content: string)

  // ---------------------------------------------------------------- what an apply writes

  function WriteAll(files: Files, targets: seq<Target>): Files {
    if targets == [] then files
    else
      var last := targets[|targets| - 1];
      WriteAll(files, targets[..|targets| - 1])[last.path := last.content]
  }

  function RemoveAll(files: Files, removed: seq<ACLFile>): Files {
    if removed == [] then files
    else RemoveAll(files, removed[..|removed| - 1]) - {removed[|removed| - 1].path}
  }

  function Bodies(files: seq<ACLFile>): (targets: seq<Target>)
    ensures |targets| == |files|
    ensures forall i :: 0 <= i < |files| ==> targets[i] == Target(files[i].path, files[i].body)
  {
    seq(|files|, i requires 0 <= i < |files| => Target(files[i].path, files[i].body))
  }

  function Snapshots(files: seq<ACLFile>): (targets: seq<Target>)
    ensures |targets| == |files|
    ensures forall i :: 0 <= i < |files| ==> targets[i] == Target(files[i].path, files[i].snapshot)
  {
    seq(|files|, i requires 0 <= i < |files| => Target(files[i].path, files[i].snapshot))
  }

  /* The broker-wide file followed by the listener files. */
  function ACLFiles(aclPath: string, req: ApplyRequest): seq<ACLFile> {
    [ACLFile(aclPath, req.aclBody, req.aclSnapshot)] + req.listenerFiles
  }

  function NewTargets(aclPath: string, passwdPath: string, req: ApplyRequest): seq<Target> {
    Bodies(ACLFiles(aclPath, req)) + [Target(passwdPath, req.passwdBody)]
  }

  function OldTargets(aclPath: string, passwdPath: string, req: ApplyRequest): seq<Target> {
    Snapshots(ACLFiles(aclPath, req)) + Snapshots(req.removedFiles) + [Target(passwdPath, req.passwdSnapshot)]
  }

  /* The files an apply without failure leaves. */
  function NewFiles(files: Files, aclPath: string, passwdPath: string, req: ApplyRequest): Files {
    RemoveAll(WriteAll(files, NewTargets(aclPath, passwdPath, req)), req.removedFiles)
  }

  /* The files an internal rollback leaves. */
  function OldFiles(files: Files, aclPath: string, passwdPath: string, req: ApplyRequest): Files {
    WriteAll(files, OldTargets(aclPath, passwdPath, req))
  }

  function PathsOf(targets: seq<Target>): set<string> {
    set t | t in targets :: t.path
  }

  /* Two states that differ at most on the given paths. */
  ghost predicate SameOutside(a: Files, b: Files, paths: set<string>) {
    a - paths == b - paths
  }

  // ---------------------------------------------------------------- laws of writing

  lemma WriteSnoc(files: Files, targets: seq<Target>, t: Target)
    ensures WriteAll(files, targets + [t]) == WriteAll(files, targets)[t.path := t.content]
  {
    assert (targets + [t])[..|targets|] == targets;
  }

  lemma {:induction false} WriteOutside(files: Files, targets: seq<Target>)
    ensures SameOutside(WriteAll(files, targets), files, PathsOf(targets))
  {
    if targets != [] {
      var init, last := targets[..|targets| - 1], targets[|targets| - 1];
      WriteOutside(files, init);
      assert targets == init + [last];
      assert PathsOf(targets) == PathsOf(init) + {last.path};
      var w := WriteAll(files, init);
      assert w[last.path := last.content] - PathsOf(targets) == (w - PathsOf(init)) - {last.path};
      assert files - PathsOf(targets) == (files - PathsOf(init)) - {last.path};
    }
  }

  /* Writing a set of paths erases what was on them before. */
  lemma {:induction false} WriteCovers(a: Files, b: Files, targets: seq<Target>)
    requires SameOutside(a, b, PathsOf(targets))
    ensures WriteAll(a, targets) == WriteAll(b, targets)
  {
    WriteAgrees(a, b, targets);
    WriteOutside(a, targets);
    WriteOutside(b, targets);
    var x, y := WriteAll(a, targets), WriteAll(b, targets);
    forall p | p in x || p in y ensures p in x && p in y && x[p] == y[p] {
      if p !in PathsOf(targets) {
        assert p in x - PathsOf(targets) <==> p in a - PathsOf(targets);
        assert p in y - PathsOf(targets) <==> p in b - PathsOf(targets);
        assert p in a - PathsOf(targets) <==> p in b - PathsOf(targets);
        assert p in x ==> x[p] == (x - PathsOf(targets))[p];
        assert p in y ==> y[p] == (y - PathsOf(targets))[p];
      }
    }
  }

  lemma {:induction false} WriteAgrees(a: Files, b: Files, targets: seq<Target>)
    ensures forall p :: p in PathsOf(targets) ==>
              p in WriteAll(a, targets) && p in WriteAll(b, targets) && WriteAll(a, targets)[p] == WriteAll(b, targets)[p]
  {
    if targets != [] {
      var init, last := targets[..|targets| - 1], targets[|targets| - 1];
      WriteAgrees(a, b, init);
      assert targets == init + [last];
      assert PathsOf(targets) == PathsOf(init) + {last.path};
    }
  }

  lemma SameOutsideTransitive(a: Files, b: Files, c: Files, p: set<string>, q: set<string>)
    requires SameOutside(a, b, p) && SameOutside(b, c, p) && p <= q
    ensures SameOutside(a, c, p) && SameOutside(a, b, q)
  {
    assert a - q == (a - p) - q && b - q == (b - p) - q;
  }

  lemma PathsConcat(a: seq<Target>, b: seq<Target>)
    ensures PathsOf(a + b) == PathsOf(a) + PathsOf(b)
  {
    assert forall t :: t in a + b <==> t in a || t in b;
  }

  // ---------------------------------------------------------------- staging

  function NameSet(names: seq<nat>): set<nat> {
    set n | n in names
  }

  lemma NameSetSnoc(names: seq<nat>, name: nat)
    ensures NameSet(names + [name]) == NameSet(names) + {name}
  {
    assert forall n :: n in names + [name] <==> n in names || n == name;
  }

  /* Stages one content. On failure the temp file is cleaned up, as far as that works. */
  method WriteStage(disk: Disk, content: string) returns (ok: bool, name: nat)
    modifies disk`temps, disk`faults, disk`removalFaults, disk`trace
    ensures disk.removalFaults >= old(disk.removalFaults)
    ensures ok ==> name !in old(disk.temps) && disk.temps == old(disk.temps)[name := content]
                   && disk.faults == old(disk.faults) && disk.removalFaults == old(disk.removalFaults)
    ensures !ok ==> disk.faults == old(disk.faults) + 1
                    && (disk.removalFaults == old(disk.removalFaults) ==> disk.temps == old(disk.temps))
    ensures disk.trace == old(disk.trace) + if ok then [] else [StageFault]
  {
    ok, name := disk.CreateTemp();
    if !ok {
      return false, 0;
    }
    ok := disk.WriteTemp(name, content);
    if ok {
      ok := disk.SettleTemp();
    }
    if ok {
      ok := disk.SettleTemp();
    }
    if ok {
      ok := disk.SettleTemp();
    }
    if !ok {
      disk.RemoveTemp(name);
      return false, 0;
    }
  }

  method CleanupTemps(disk: Disk, names: seq<nat>)
    modifies disk`temps, disk`removalFaults
    ensures disk.removalFaults >= old(disk.removalFaults)
    ensures disk.removalFaults == old(disk.removalFaults) ==> disk.temps == old(disk.temps) - NameSet(names)
  {
    for k := 0 to |names|
      invariant disk.removalFaults >= old(disk.removalFaults)
      invariant disk.removalFaults == old(disk.removalFaults) ==> disk.temps == old(disk.temps) - NameSet(names[..k])
    {
      assert names[..k + 1] == names[..k] + [names[k]];
      NameSetSnoc(names[..k], names[k]);
      disk.RemoveTemp(names[k]);
    }
    assert names[..|names|] == names;
  }

  /* The staged files of the given contents, in order, on top of what was staged before. */
  ghost predicate Staged(before: map<nat, string>, temps: map<nat, string>, names: seq<nat>, targets: seq<Target>) {
    && |names| == |targets|
    && (forall i :: 0 <= i < |names| ==> names[i] !in before && names[i] in temps && temps[names[i]] == targets[i].content)
    && (forall i, j :: 0 <= i < j < |names| ==> names[i] != names[j])
    && temps - NameSet(names) == before
  }

  lemma StagedSnoc(before: map<nat, string>, temps: map<nat, string>, names: seq<nat>, targets: seq<Target>, name: nat, t: Target)
    requires Staged(before, temps, names, targets) && name !in temps
    ensures Staged(before, temps[name := t.content], names + [name], targets + [t])
  {
    var after := temps[name := t.content];
    NameSetSnoc(names, name);
    assert after - (NameSet(names) + {name}) == temps - NameSet(names);
    assert name !in before by {
      assert forall n :: n in before ==> n in temps;
    }
  }

  lemma StagedHead(before: map<nat, string>, temps: map<nat, string>, names: seq<nat>, targets: seq<Target>)
    requires Staged(before, temps, names, targets) && names != []
    ensures names[0] in temps && temps[names[0]] == targets[0].content
    ensures Staged(before, temps - {names[0]}, names[1..], targets[1..])
    ensures (temps - {names[0]}) - NameSet(names[1..]) == before
  {
    assert names == [names[0]] + names[1..];
    assert NameSet(names) == NameSet(names[1..]) + {names[0]};
    assert (temps - {names[0]}) - NameSet(names[1..]) == temps - NameSet(names);
  }

  lemma StagedNone(before: map<nat, string>, temps: map<nat, string>, targets: seq<Target>)
    requires Staged(before, temps, [], targets)
    ensures temps == before
  {
    assert temps - NameSet([]) == temps;
  }

  /* Stage 1: every body is written to a temp file; no target is touched. */
  method StageAll(disk: Disk, targets: seq<Target>) returns (ok: bool, names: seq<nat>)
    modifies disk`temps, disk`faults, disk`removalFaults, disk`trace
    ensures disk.removalFaults >= old(disk.removalFaults)
    ensures ok ==> Staged(old(disk.temps), disk.temps, names, targets)
                   && disk.faults == old(disk.faults) && disk.removalFaults == old(disk.removalFaults)
    ensures !ok ==> disk.faults > old(disk.faults)
                    && (disk.removalFaults == old(disk.removalFaults) ==> disk.temps == old(disk.temps))
    ensures disk.trace == old(disk.trace) + if ok then [] else [StageFault]
  {
    names := [];
    assert disk.temps - NameSet(names) == disk.temps;
    for k := 0 to |targets|
      invariant Staged(old(disk.temps), disk.temps, names, targets[..k])
      invariant disk.faults == old(disk.faults) && disk.removalFaults == old(disk.removalFaults)
      invariant disk.trace == old(disk.trace)
    {
      var name;
      ghost var temps := disk.temps;
      ok, name := WriteStage(disk, targets[k].content);
      if !ok {
        CleanupTemps(disk, names);
        return false, [];
      }
      StagedSnoc(old(disk.temps), temps, names, targets[..k], name, targets[k]);
      assert targets[..k + 1] == targets[..k] + [targets[k]];
      names := names + [name];
    }
    assert targets[..|targets|] == targets;
    ok := true;
  }

  /* Stage 2: every staged file is renamed into place; on failure the rest is cleaned up. */
  method CommitAll(disk: Disk, names: seq<nat>, targets: seq<Target>, ghost before: map<nat, string>) returns (ok: bool)
    requires Staged(before, disk.temps, names, targets)
    modifies disk`files, disk`temps, disk`faults, disk`removalFaults, disk`trace
    ensures disk.removalFaults >= old(disk.removalFaults)
    ensures ok ==> disk.files == WriteAll(old(disk.files), targets) && disk.temps == before
                   && disk.faults == old(disk.faults) && disk.removalFaults == old(disk.removalFaults)
    ensures !ok ==> SameOutside(disk.files, old(disk.files), PathsOf(targets)) && disk.faults > old(disk.faults)
                    && (disk.removalFaults == old(disk.removalFaults) ==> disk.temps == before)
    ensures ok ==> disk.trace == old(disk.trace) + Puts(targets)
    ensures !ok ==> targets != [] && old(disk.trace) + [Put(targets[0].path, targets[0].content)] <= disk.trace
  {
    hide Staged, WriteAll, PathsOf, SameOutside, NameSet, Puts;
    StagedLength(before, disk.temps, names, targets);
    assert names[0..] == names && targets[0..] == targets && targets[..0] == [];
    NothingWritten(disk.files);
    NothingPut();
    for k := 0 to |targets|
      invariant Staged(before, disk.temps, names[k..], targets[k..])
      invariant disk.files == WriteAll(old(disk.files), targets[..k])
      invariant disk.faults == old(disk.faults) && disk.removalFaults == old(disk.removalFaults)
      invariant disk.trace == old(disk.trace) + Puts(targets[..k])
    {
      assert targets[..k + 1] == targets[..k] + [targets[k]];
      WriteSnoc(old(disk.files), targets[..k], targets[k]);
      PutsSnoc(targets, k);
      StagedHead(before, disk.temps, names[k..], targets[k..]);
      assert names[k..][1..] == names[k + 1..] && targets[k..][1..] == targets[k + 1..];
      assert names[k..][0] == names[k];
      ok := disk.Rename(names[k], targets[k].path);
      if !ok {
        disk.RemoveTemp(names[k]);
        CleanupTemps(disk, names[k + 1..]);
        PrefixOutside(old(disk.files), targets, k);
        PutsStart(disk.trace, old(disk.trace), targets[..k + 1]);
        assert targets[..k + 1][0] == targets[0];
        return false;
      }
    }
    assert targets[..|targets|] == targets && names[|targets|..] == [];
    StagedNone(before, disk.temps, targets[|targets|..]);
    ok := true;
  }

  /* The renames that put the targets into place. */
  function Puts(targets: seq<Target>): (events: seq<Event>)
    ensures |events| == |targets|
    ensures forall i :: 0 <= i < |events| ==> events[i] == Put(targets[i].path, targets[i].content)
  {
    seq(|targets|, i requires 0 <= i < |targets| => Put(targets[i].path, targets[i].content))
  }

  lemma NothingPut()
    ensures Puts([]) == []
  {
  }

  lemma PutsSnoc(targets: seq<Target>, k: nat)
    requires k < |targets|
    ensures Puts(targets[..k + 1]) == Puts(targets[..k]) + [Put(targets[k].path, targets[k].content)]
  {
  }

  lemma PutsStart(trace: seq<Event>, before: seq<Event>, targets: seq<Target>)
    requires targets != [] && trace == before + Puts(targets)
    ensures before + [Put(targets[0].path, targets[0].content)] <= trace
  {
  }

  lemma StagedLength(before: map<nat, string>, temps: map<nat, string>, names: seq<nat>, targets: seq<Target>)
    requires Staged(before, temps, names, targets)
    ensures |names| == |targets|
  {
  }

  lemma NothingWritten(files: Files)
    ensures WriteAll(files, []) == files
  {
  }

  lemma PrefixOutside(files: Files, targets: seq<Target>, k: nat)
    requires k <= |targets|
    ensures SameOutside(WriteAll(files, targets[..k]), files, PathsOf(targets))
  {
    WriteOutside(files, targets[..k]);
    PathsConcat(targets[..k], targets[k..]);
    assert targets == targets[..k] + targets[k..];
    SameOutsideTransitive(WriteAll(files, targets[..k]), files, files, PathsOf(targets[..k]), PathsOf(targets));
  }

  // ---------------------------------------------------------------- rollback

  /* Writes one file through a staged temp file. */
  method AtomicWrite(disk: Disk, t: Target) returns (ok: bool)
    modifies disk`files, disk`temps, disk`faults, disk`removalFaults, disk`trace
    ensures disk.removalFaults >= old(disk.removalFaults)
    ensures old(disk.trace) <= disk.trace
    ensures disk.removalFaults == old(disk.removalFaults) ==> disk.temps == old(disk.temps)
    ensures ok ==> disk.files == old(disk.files)[t.path := t.content]
                   && disk.faults == old(disk.faults) && disk.removalFaults == old(disk.removalFaults)
    ensures !ok ==> disk.files == old(disk.files) && disk.faults > old(disk.faults)
  {
    var name;
    ok, name := WriteStage(disk, t.content);
    if !ok {
      return false;
    }
    assert disk.temps - {name} == old(disk.temps);
    ok := disk.Rename(name, t.path);
    if !ok {
      disk.RemoveTemp(name);
    }
  }

  /* Restores every target in order; stops at the first failure. */
  method RollbackFromSnapshot(disk: Disk, targets: seq<Target>) returns (ok: bool)
    modifies disk`files, disk`temps, disk`faults, disk`removalFaults, disk`trace
    ensures disk.removalFaults >= old(disk.removalFaults)
    ensures old(disk.trace) <= disk.trace
    ensures disk.removalFaults == old(disk.removalFaults) ==> disk.temps == old(disk.temps)
    ensures ok ==> disk.files == WriteAll(old(disk.files), targets) && disk.faults == old(disk.faults)
    ensures !ok ==> SameOutside(disk.files, old(disk.files), PathsOf(targets)) && disk.faults > old(disk.faults)
  {
    for k := 0 to |targets|
      invariant disk.removalFaults >= old(disk.removalFaults)
      invariant old(disk.trace) <= disk.trace
      invariant disk.removalFaults == old(disk.removalFaults) ==> disk.temps == old(disk.temps)
      invariant disk.files == WriteAll(old(disk.files), targets[..k])
      invariant disk.faults == old(disk.faults)
    {
      assert targets[..k + 1] == targets[..k] + [targets[k]];
      WriteSnoc(old(disk.files), targets[..k], targets[k]);
      ok := AtomicWrite(disk, targets[k]);
      if !ok {
        PrefixOutside(old(disk.files), targets, k);
        return false;
      }
    }
    assert targets[..|targets|] == targets;
    ok := true;
  }

  // ---------------------------------------------------------------- the apply

  class FileApplier {
    const aclPath: string
    const passwdPath: string
    /* Whether a PID file or a reload command is configured. */
    const canReload: bool
    const disk: Disk

    constructor (aclPath: string, passwdPath: string, canReload: bool, disk: Disk)
      ensures this.aclPath == aclPath && this.passwdPath == passwdPath && this.canReload == canReload && this.disk == disk
    {
      this.aclPath, this.passwdPath, this.canReload, this.disk := aclPath, passwdPath, canReload, disk;
    }

    function New(files: Files, req: ApplyRequest): Files {
      NewFiles(files, aclPath, passwdPath, req)
    }

    function Old(files: Files, req: ApplyRequest): Files {
      OldFiles(files, aclPath, passwdPath, req)
    }

    function Touched(req: ApplyRequest): set<string> {
      PathsOf(OldTargets(aclPath, passwdPath, req))
    }

    method RollbackAfterPartialApply(req: ApplyRequest, ghost before: Files) returns (outcome: Outcome)
      requires SameOutside(disk.files, before, Touched(req))
      modifies disk`files, disk`temps, disk`faults, disk`removalFaults, disk`trace
      ensures outcome in {Restored, RollbackFailed}
      ensures disk.removalFaults >= old(disk.removalFaults)
      ensures old(disk.trace) <= disk.trace
      ensures disk.removalFaults == old(disk.removalFaults) ==> disk.temps == old(disk.temps)
      ensures outcome == Restored ==> disk.files == Old(before, req) && disk.faults == old(disk.faults)
      ensures outcome == RollbackFailed ==> SameOutside(disk.files, before, Touched(req)) && disk.faults > old(disk.faults)
    {
      var targets := OldTargets(aclPath, passwdPath, req);
      var ok := RollbackFromSnapshot(disk, targets);
      if !ok {
        return RollbackFailed;
      }
      WriteCovers(old(disk.files), before, targets);
      return Restored;
    }

    method RemoveRetired(req: ApplyRequest) returns (ok: bool)
      modifies disk`files, disk`faults
      ensures ok ==> disk.files == RemoveAll(old(disk.files), req.removedFiles) && disk.faults == old(disk.faults)
      ensures !ok ==> SameOutside(disk.files, old(disk.files), Touched(req)) && disk.faults > old(disk.faults)
    {
      for k := 0 to |req.removedFiles|
        invariant disk.files == RemoveAll(old(disk.files), req.removedFiles[..k])
        invariant disk.faults == old(disk.faults)
      {
        assert req.removedFiles[..k + 1][..k] == req.removedFiles[..k];
        ok := disk.Remove(req.removedFiles[k].path);
        if !ok {
          NewPathsTouched(aclPath, passwdPath, req);
          RemovedOutside(old(disk.files), req.removedFiles[..k], Touched(req));
          return false;
        }
      }
      assert req.removedFiles[..|req.removedFiles|] == req.removedFiles;
      ok := true;
    }

    /* Stages 2 to 4: the staged bodies replace the targets, the retired files go, the broker is told.
       Whatever fails, every file touched is restored. */
    method Replace(req: ApplyRequest, names: seq<nat>, ghost before: map<nat, string>) returns (outcome: Outcome)
      requires Staged(before, disk.temps, names, NewTargets(aclPath, passwdPath, req))
      modifies disk
      ensures outcome in {Applied, Restored, RollbackFailed}
      ensures if outcome == Applied then disk.faults == old(disk.faults) else disk.faults > old(disk.faults)
      ensures outcome == Applied ==> disk.files == New(old(disk.files), req) && disk.reloads == old(disk.reloads) + [disk.files]
      ensures outcome == Restored ==> disk.files == Old(old(disk.files), req)
      ensures outcome == RollbackFailed ==> SameOutside(disk.files, old(disk.files), Touched(req))
      ensures disk.reloads == old(disk.reloads) || disk.reloads == old(disk.reloads) + [New(old(disk.files), req)]
      ensures disk.removalFaults >= old(disk.removalFaults)
      ensures disk.removalFaults == old(disk.removalFaults) ==> disk.temps == before
      ensures outcome == Applied ==> disk.trace == old(disk.trace) + Puts(NewTargets(aclPath, passwdPath, req))
      ensures old(disk.trace) + [Put(aclPath, req.aclBody)] <= disk.trace
    {
      hide NewTargets, OldTargets, WriteAll, RemoveAll, PathsOf, Puts, Staged, SameOutside;
      var targets := NewTargets(aclPath, passwdPath, req);
      FirstTarget(aclPath, passwdPath, req);
      NewPathsTouched(aclPath, passwdPath, req);
      var ok := CommitAll(disk, names, targets, before);
      if !ok {
        SameOutsideTransitive(disk.files, old(disk.files), old(disk.files), PathsOf(targets), Touched(req));
        outcome := RollbackAfterPartialApply(req, old(disk.files));
        return;
      }
      PutsStart(disk.trace, old(disk.trace), targets);
      WriteOutside(old(disk.files), targets);
      SameOutsideTransitive(disk.files, old(disk.files), old(disk.files), PathsOf(targets), Touched(req));
      ghost var written := disk.files;
      ok := RemoveRetired(req);
      if !ok {
        SameOutsideTransitive(disk.files, written, old(disk.files), Touched(req), Touched(req));
        outcome := RollbackAfterPartialApply(req, old(disk.files));
        return;
      }
      ok := disk.Reload();
      if !ok {
        RemovedOutside(written, req.removedFiles, Touched(req));
        SameOutsideTransitive(disk.files, written, old(disk.files), Touched(req), Touched(req));
        outcome := RollbackAfterPartialApply(req, old(disk.files));
        return;
      }
      outcome := Applied;
    }

    /* Writes every body, removes the retired files, signals the broker. Nothing is renamed or restored
       before all bodies are staged. */
    method Apply(cancelled: bool, req: ApplyRequest) returns (outcome: Outcome)
      modifies disk
      ensures disk.faults >= old(disk.faults)
      ensures outcome == Cancelled <==> cancelled
      ensures outcome == ReloadNotSignaled <==> !cancelled && !canReload
      ensures outcome == Applied <==> !cancelled && canReload && disk.faults == old(disk.faults)
      ensures outcome == Applied ==> disk.files == New(old(disk.files), req) && disk.reloads == old(disk.reloads) + [disk.files]
      ensures outcome == Restored ==> disk.files == Old(old(disk.files), req)
      ensures outcome == RollbackFailed ==> SameOutside(disk.files, old(disk.files), Touched(req))
      ensures outcome in {Cancelled, ReloadNotSignaled, StageFailed} ==>
                disk.files == old(disk.files) && disk.reloads == old(disk.reloads)
      ensures disk.reloads == old(disk.reloads) || disk.reloads == old(disk.reloads) + [New(old(disk.files), req)]
      ensures outcome in {Cancelled, ReloadNotSignaled} ==> disk.trace == old(disk.trace)
      ensures outcome == StageFailed <==> disk.trace == old(disk.trace) + [StageFault]
      ensures outcome in {Applied, Restored, RollbackFailed} <==>
                old(disk.trace) + [Put(aclPath, req.aclBody)] <= disk.trace
      ensures outcome == Applied ==> disk.trace == old(disk.trace) + Puts(NewTargets(aclPath, passwdPath, req))
      ensures disk.removalFaults >= old(disk.removalFaults)
      ensures disk.removalFaults == old(disk.removalFaults) ==> disk.temps == old(disk.temps)
    {
      hide NewTargets, OldTargets, WriteAll, RemoveAll, PathsOf, Puts, Staged, SameOutside;
      if cancelled {
        return Cancelled;
      }
      if !canReload {
        return ReloadNotSignaled;
      }
      var staged, names := StageAll(disk, NewTargets(aclPath, passwdPath, req));
      if !staged {
        PutOrFault(disk.trace, old(disk.trace), aclPath, req.aclBody);
        return StageFailed;
      }
      outcome := Replace(req, names, old(disk.temps));
      PutOrFault(disk.trace, old(disk.trace), aclPath, req.aclBody);
    }
  }

  /* A run does not begin both ways. */
  lemma PutOrFault(trace: seq<Event>, before: seq<Event>, path: string, content: string)
    ensures before + [Put(path, content)] <= trace ==> trace != before + [StageFault]
  {
    if before + [Put(path, content)] <= trace {
      assert trace[|before|] == Put(path, content);
    }
  }

  lemma {:induction false} RemovedOutside(files: Files, removed: seq<ACLFile>, paths: set<string>)
    requires forall f :: f in removed ==> f.path in paths
    ensures SameOutside(RemoveAll(files, removed), files, paths)
  {
    if removed != [] {
      var init, last := removed[..|removed| - 1], removed[|removed| - 1];
      RemovedOutside(files, init, paths);
      assert last in removed;
      assert (RemoveAll(files, init) - {last.path}) - paths == RemoveAll(files, init) - paths;
    }
  }

  lemma FirstTarget(aclPath: string, passwdPath: string, req: ApplyRequest)
    ensures NewTargets(aclPath, passwdPath, req) != []
    ensures NewTargets(aclPath, passwdPath, req)[0] == Target(aclPath, req.aclBody)
  {
  }

  /* An apply restores every path it writes or removes. */
  lemma NewPathsTouched(aclPath: string, passwdPath: string, req: ApplyRequest)
    ensures PathsOf(NewTargets(aclPath, passwdPath, req)) <= PathsOf(OldTargets(aclPath, passwdPath, req))
    ensures forall f :: f in req.removedFiles ==> f.path in PathsOf(OldTargets(aclPath, passwdPath, req))
  {
    var files := ACLFiles(aclPath, req);
    BodiesPaths(files);
    SnapshotsPaths(files);
    SnapshotsPaths(req.removedFiles);
    hide Bodies, Snapshots;
    PathsConcat(Bodies(files), [Target(passwdPath, req.passwdBody)]);
    PathsConcat(Snapshots(files) + Snapshots(req.removedFiles), [Target(passwdPath, req.passwdSnapshot)]);
    PathsConcat(Snapshots(files), Snapshots(req.removedFiles));
    OnePath(Target(passwdPath, req.passwdBody));
    OnePath(Target(passwdPath, req.passwdSnapshot));
  }

  lemma OnePath(t: Target)
    ensures PathsOf([t]) == {t.path}
  {
    assert t in [t];
  }

  lemma BodiesPaths(files: seq<ACLFile>)
    ensures PathsOf(Bodies(files)) == set f | f in files :: f.path
  {
    forall f | f in files ensures f.path in PathsOf(Bodies(files)) {
      var i :| 0 <= i < |files| && files[i] == f;
      assert Bodies(files)[i] in Bodies(files);
    }
  }

  lemma SnapshotsPaths(files: seq<ACLFile>)
    ensures PathsOf(Snapshots(files)) == set f | f in files :: f.path
  {
    forall f | f in files ensures f.path in PathsOf(Snapshots(files)) {
      var i :| 0 <= i < |files| && files[i] == f;
      assert Snapshots(files)[i] in Snapshots(files);
    }
  }

  // ---------------------------------------------------------------- what the outcomes mean

  ghost predicate TrueSnapshots(files: Files, targets: seq<Target>) {
    forall t :: t in targets ==> t.content == Reads(files, t.path)
  }

  /* With true snapshots a restored apply leaves every path reading its old content. */
  lemma {:induction false} RestoreReads(files: Files, targets: seq<Target>, path: string)
    requires TrueSnapshots(files, targets)
    ensures Reads(WriteAll(files, targets), path) == Reads(files, path)
  {
    if targets != [] {
      var init, last := targets[..|targets| - 1], targets[|targets| - 1];
      assert last in targets;
      RestoreReads(files, init, path);
    }
  }

  /* What is written last at a path is the content of some target for it. */
  lemma {:induction false} WrittenFrom(files: Files, targets: seq<Target>, path: string)
    requires path in PathsOf(targets)
    ensures path in WriteAll(files, targets)
    ensures exists t :: t in targets && t.path == path && t.content == WriteAll(files, targets)[path]
  {
    var init, last := targets[..|targets| - 1], targets[|targets| - 1];
    assert targets == init + [last] && last in targets;
    if path != last.path {
      WrittenFrom(files, init, path);
    }
  }

  /* No two targets want different contents at one path, and none is at a path to be retired. */
  predicate Compatible(targets: seq<Target>, removed: seq<ACLFile>) {
    && (forall t, u :: t in targets && u in targets && t.path == u.path ==> t.content == u.content)
    && (forall t, f :: t in targets && f in removed ==> t.path != f.path)
  }

  lemma {:induction false} RemovedGone(files: Files, removed: seq<ACLFile>, path: string)
    ensures if exists f :: f in removed && f.path == path then path !in RemoveAll(files, removed)
            else (path in RemoveAll(files, removed) <==> path in files)
                 && (path in files ==> RemoveAll(files, removed)[path] == files[path])
  {
    if removed != [] {
      var init, last := removed[..|removed| - 1], removed[|removed| - 1];
      assert removed == init + [last];
      RemovedGone(files, init, path);
      if exists f :: f in removed && f.path == path {
        var f :| f in removed && f.path == path;
        assert f in init || f == last;
      } else {
        assert last in removed && forall f :: f in init ==> f in removed;
      }
    }
  }

  /* After an apply every retired path is gone, and every written path holds its body exactly when
     the targets are compatible with one another and with what is retired. */
  lemma AppliedMeans(files: Files, aclPath: string, passwdPath: string, req: ApplyRequest)
    ensures var targets := NewTargets(aclPath, passwdPath, req);
            var after := NewFiles(files, aclPath, passwdPath, req);
            && ((forall t :: t in targets ==> t.path in after && after[t.path] == t.content)
                <==> Compatible(targets, req.removedFiles))
            && (forall f :: f in req.removedFiles ==> f.path !in after)
  {
    hide NewTargets, WriteAll, RemoveAll;
    var targets := NewTargets(aclPath, passwdPath, req);
    var after := NewFiles(files, aclPath, passwdPath, req);
    forall f | f in req.removedFiles ensures f.path !in after {
      RetiredGone(files, aclPath, passwdPath, req, f);
    }
    if Compatible(targets, req.removedFiles) {
      forall t | t in targets ensures t.path in after && after[t.path] == t.content {
        WrittenFrom(files, targets, t.path);
        RemovedGone(WriteAll(files, targets), req.removedFiles, t.path);
      }
    }
  }

  lemma RetiredGone(files: Files, aclPath: string, passwdPath: string, req: ApplyRequest, f: ACLFile)
    requires f in req.removedFiles
    ensures f.path !in NewFiles(files, aclPath, passwdPath, req)
  {
    hide NewTargets, WriteAll, RemoveAll;
    RemovedGone(WriteAll(files, NewTargets(aclPath, passwdPath, req)), req.removedFiles, f.path);
  }

  /* Every other path is left alone. */
  lemma AppliedFrame(files: Files, aclPath: string, passwdPath: string, req: ApplyRequest)
    ensures SameOutside(NewFiles(files, aclPath, passwdPath, req), files, PathsOf(OldTargets(aclPath, passwdPath, req)))
  {
    var targets := NewTargets(aclPath, passwdPath, req);
    var touched := PathsOf(OldTargets(aclPath, passwdPath, req));
    hide NewTargets, OldTargets, WriteAll, RemoveAll, SameOutside, PathsOf;
    NewPathsTouched(aclPath, passwdPath, req);
    WriteOutside(files, targets);
    SameOutsideTransitive(WriteAll(files, targets), files, files, PathsOf(targets), touched);
    SameSelf(files, PathsOf(targets));
    RemovedOutside(WriteAll(files, targets), req.removedFiles, touched);
    SameOutsideTransitive(NewFiles(files, aclPath, passwdPath, req), WriteAll(files, targets), files, touched, touched);
  }

  lemma SameSelf(files: Files, paths: set<string>)
    ensures SameOutside(files, files, paths)
  {
  }
}
