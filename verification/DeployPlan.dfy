/**
 The files a deploy writes and removes (internal/deploy/acl_scope.go), and the hash that ties an apply
 to the preview it was reviewed on. Hashes are taken to be injective, so a hash is its content.
 */
module DeployPlan {
  import opened Strings
  import opened Rules
  import opened Disks
  import opened Applier

  /* One rendered ACL file: the broker-wide one, or the one of a listener. */
  datatype FileRender = FileRender(scope: Scope, listenerId: string, path: string, body: string)

  /* What rendering the stored rules and users yields. */
  datatype Rendered = Rendered(aclBody: string, passwdBody: string, files: seq<FileRender>)

  /* `filepath.Join(dir, "acl." + id)` for a cleaned directory. */
  function ListenerACLPath(dir: string, id: string): string {
    if dir == "." then "acl." + id
    else if dir == "/" then "/acl." + id
    else dir + "/acl." + id
  }

  /* The shape of a render: the broker-wide file first, then one file per listener. Nothing keeps the
     file of a listener from having the path of the broker-wide one. */
  ghost predicate RenderedFor(r: Rendered, aclPath: string, dir: string) {
    && |r.files| >= 1
    && r.files[0] == FileRender(Global, "", aclPath, r.aclBody)
    && (forall i :: 1 <= i < |r.files| ==>
          && r.files[i].scope == Listener && ValidListenerId(r.files[i].listenerId)
          && r.files[i].path == ListenerACLPath(dir, r.files[i].listenerId))
    && (forall i, j :: 1 <= i < j < |r.files| ==> r.files[i].listenerId != r.files[j].listenerId)
  }

  /* What `filepath.Dir` promises here: a path without a separator lies in ".". */
  predicate DirectoryOf(dir: string, path: string) {
    '/' !in path ==> dir == "."
  }

  lemma ListenerPathInjective(dir: string, a: string, b: string)
    requires ListenerACLPath(dir, a) == ListenerACLPath(dir, b)
    ensures a == b
  {
    var prefix := if dir == "." then "acl." else if dir == "/" then "/acl." else dir + "/acl.";
    assert ListenerACLPath(dir, a) == prefix + a && ListenerACLPath(dir, b) == prefix + b;
    assert (prefix + a)[|prefix|..] == a && (prefix + b)[|prefix|..] == b;
  }

  lemma ListenerPathHasSeparator(dir: string, id: string)
    requires dir != "."
    ensures '/' in ListenerACLPath(dir, id)
  {
    var k := if dir == "/" then 0 else |dir|;
    assert ListenerACLPath(dir, id)[k] == '/';
  }

  lemma ListenerIdHasNone(id: string)
    requires ValidListenerId(id)
    ensures '/' !in id
  {
    forall i | 0 <= i < |id| ensures id[i] != '/' { assert ListenerIdCharacter(id[i]); }
  }

  // ---------------------------------------------------------------- the hash over the file set

  function InsertByPath(sorted: seq<FileRender>, f: FileRender): seq<FileRender> {
    if sorted == [] || Less(f.path, sorted[0].path) then [f] + sorted
    else [sorted[0]] + InsertByPath(sorted[1..], f)
  }

  function SortByPath(files: seq<FileRender>): seq<FileRender> {
    if files == [] then [] else InsertByPath(SortByPath(files[1..]), files[0])
  }

  function EncodePairs(files: seq<FileRender>): string {
    if files == [] then ""
    else files[0].path + "\0" + files[0].body + "\0" + EncodePairs(files[1..])
  }

  /* `aclFilesHash`, before hashing. */
  function FilesHash(files: seq<FileRender>): string {
    EncodePairs(SortByPath(files))
  }

  predicate NulFree(files: seq<FileRender>) {
    forall f :: f in files ==> '\0' !in f.path && '\0' !in f.body
  }

  function PairSet(files: seq<FileRender>): set<(string, string)> {
    set f | f in files :: (f.path, f.body)
  }

  lemma {:induction false} InsertMembers(sorted: seq<FileRender>, f: FileRender)
    ensures forall x :: x in InsertByPath(sorted, f) <==> x in sorted || x == f
  {
    if sorted != [] && !Less(f.path, sorted[0].path) {
      InsertMembers(sorted[1..], f);
      assert sorted == [sorted[0]] + sorted[1..];
    }
  }

  lemma {:induction false} SortMembers(files: seq<FileRender>)
    ensures forall x :: x in SortByPath(files) <==> x in files
  {
    if files != [] {
      SortMembers(files[1..]);
      InsertMembers(SortByPath(files[1..]), files[0]);
      assert files == [files[0]] + files[1..];
    }
  }

  lemma {:induction false} EncodeInjective(a: seq<FileRender>, b: seq<FileRender>)
    requires NulFree(a) && NulFree(b) && EncodePairs(a) == EncodePairs(b)
    ensures |a| == |b| && forall i :: 0 <= i < |a| ==> a[i].path == b[i].path && a[i].body == b[i].body
  {
    if a != [] && b != [] {
      assert a[0] in a && b[0] in b;
      var x, y := EncodePairs(a[1..]), EncodePairs(b[1..]);
      EncodedParts(a, x);
      EncodedParts(b, y);
      CutAt(a[0].path, a[0].body + ['\0'] + x, b[0].path, b[0].body + ['\0'] + y, '\0');
      CutAt(a[0].body, x, b[0].body, y, '\0');
      EncodeInjective(a[1..], b[1..]);
      forall i | 0 <= i < |a| ensures a[i].path == b[i].path && a[i].body == b[i].body {
        if i > 0 { assert a[i] == a[1..][i - 1] && b[i] == b[1..][i - 1]; }
      }
    } else if a != [] || b != [] {
      EncodeNonEmpty(a);
      EncodeNonEmpty(b);
    }
  }

  lemma EncodedParts(files: seq<FileRender>, rest: string)
    requires files != [] && rest == EncodePairs(files[1..])
    ensures EncodePairs(files) == files[0].path + ['\0'] + (files[0].body + ['\0'] + rest)
  {
  }

  lemma EncodeNonEmpty(files: seq<FileRender>)
    ensures EncodePairs(files) == "" <==> files == []
  {
    if files != [] {
      assert EncodePairs(files)[|files[0].path|] == '\0';
    }
  }

  /* Equal hashes mean equal file sets, whatever order the files were rendered in. */
  lemma HashDetectsDrift(a: seq<FileRender>, b: seq<FileRender>)
    requires NulFree(a) && NulFree(b) && FilesHash(a) == FilesHash(b)
    ensures PairSet(a) == PairSet(b)
  {
    SortMembers(a);
    SortMembers(b);
    var x, y := SortByPath(a), SortByPath(b);
    EncodeInjective(x, y);
    forall p | p in PairSet(a) ensures p in PairSet(b) {
      var i :| 0 <= i < |x| && (x[i].path, x[i].body) == p;
      assert y[i] in y;
    }
    forall p | p in PairSet(b) ensures p in PairSet(a) {
      var i :| 0 <= i < |y| && (y[i].path, y[i].body) == p;
      assert x[i] in x;
    }
  }

  // ---------------------------------------------------------------- the plan

  /* The listener part of the plan carries the snapshots the rollback restores. */
  datatype Plan = Plan(global: ACLFile, listener: seq<ACLFile>, remove: seq<ACLFile>)

  /* What a preview stores of the listener files: their bodies by listener id. */
  function ListenerBodies(files: seq<FileRender>): map<string, string> {
    if files == [] then map[]
    else
      var last := files[|files| - 1];
      var init := ListenerBodies(files[..|files| - 1]);
      if last.scope == Listener then init[last.listenerId := last.body] else init
  }

  /* The bodies an apply takes from the revision. The stored listener bodies are looked up by path
     although they are keyed by listener id. */
  function RevisionBodies(aclPath: string, aclRendered: string, listenerRendered: map<string, string>): map<string, string> {
    map[aclPath := aclRendered] + listenerRendered
  }

  function PlanFile(f: FileRender, files: Files, bodies: map<string, string>): ACLFile {
    ACLFile(f.path, if f.path in bodies then bodies[f.path] else f.body, Reads(files, f.path))
  }

  predicate InRender(path: string, files: seq<FileRender>) {
    exists i :: 0 <= i < |files| && files[i].path == path
  }

  /* The listener files of a render, as the registry records them. */
  function ListenerMap(files: seq<FileRender>): map<string, string> {
    if files == [] then map[]
    else
      var last := files[|files| - 1];
      var init := ListenerMap(files[..|files| - 1]);
      if last.scope == Listener then init[last.path := last.listenerId] else init
  }

  ghost predicate IsPlan(plan: Plan, files: Files, rendered: Rendered, bodies: map<string, string>,
                         registry: map<string, string>)
    requires |rendered.files| >= 1
  {
    && plan.global == PlanFile(rendered.files[0], files, bodies)
    && |plan.listener| == |rendered.files| - 1
    && (forall i :: 0 <= i < |plan.listener| ==> plan.listener[i] == PlanFile(rendered.files[i + 1], files, bodies))
    && (forall p :: p in PathSet(plan.remove) <==> p in registry && !InRender(p, rendered.files))
    && (forall f :: f in plan.remove ==> f.snapshot == Reads(files, f.path))
    && (forall i, j :: 0 <= i < j < |plan.remove| ==> Less(plan.remove[i].path, plan.remove[j].path))
  }

  function PathSet(files: seq<ACLFile>): set<string> {
    set f | f in files :: f.path
  }

  function PlanBodies(files: seq<ACLFile>): set<(string, string)> {
    set f | f in files :: (f.path, f.body)
  }

  lemma {:induction false} ListenerBodiesKeys(files: seq<FileRender>, id: string)
    ensures id in ListenerBodies(files) <==> exists i :: 0 <= i < |files| && files[i].scope == Listener && files[i].listenerId == id
  {
    if files != [] {
      var n := |files| - 1;
      ListenerBodiesKeys(files[..n], id);
      if i :| 0 <= i < |files| && files[i].scope == Listener && files[i].listenerId == id {
        if i < n { assert files[..n][i] == files[i]; }
      }
      if id in ListenerBodies(files[..n]) {
        var i :| 0 <= i < n && files[..n][i].scope == Listener && files[..n][i].listenerId == id;
        assert files[i].listenerId == id;
      }
    }
  }

  /* Outside the working directory no path of a render is a listener id. */
  lemma PathsAreNoIds(r: Rendered, c: Rendered, aclPath: string, dir: string, i: nat)
    requires RenderedFor(r, aclPath, dir) && RenderedFor(c, aclPath, dir)
    requires DirectoryOf(dir, aclPath) && dir != "." && i < |c.files|
    ensures c.files[i].path !in ListenerBodies(r.files)
  {
    var path := c.files[i].path;
    assert '/' in path by {
      if i > 0 { ListenerPathHasSeparator(dir, c.files[i].listenerId); }
    }
    ListenerBodiesKeys(r.files, path);
    if path in ListenerBodies(r.files) {
      var k :| 0 <= k < |r.files| && r.files[k].scope == Listener && r.files[k].listenerId == path;
      ListenerIdHasNone(r.files[k].listenerId);
    }
  }

  /* The apply hands over exactly the file set of the preview. */
  ghost predicate HandsOver(plan: Plan, preview: Rendered) {
    && plan.global.body == preview.aclBody
    && {(plan.global.path, plan.global.body)} + PlanBodies(plan.listener) == PairSet(preview.files)
  }

  /* Whatever the lookup of a path among the stored bodies finds is the body of each file there. */
  predicate LookupsAgree(r: Rendered, aclPath: string) {
    var bodies := RevisionBodies(aclPath, r.aclBody, ListenerBodies(r.files));
    forall f :: f in r.files && f.path in bodies ==> bodies[f.path] == f.body
  }

  /* No listener file has the path of the broker-wide file with a body of its own. */
  predicate ListenersApart(r: Rendered, aclPath: string) {
    forall f :: f in r.files && f.path == aclPath ==> f.body == r.aclBody
  }

  /* A drift-free plan hands over the preview exactly when the lookups find the right bodies. */
  lemma PlanHandsOverPreview(plan: Plan, files: Files, preview: Rendered, current: Rendered,
                             aclPath: string, dir: string, registry: map<string, string>)
    requires RenderedFor(preview, aclPath, dir) && RenderedFor(current, aclPath, dir)
    requires NulFree(preview.files) && NulFree(current.files)
    requires FilesHash(preview.files) == FilesHash(current.files) && preview.aclBody == current.aclBody
    requires IsPlan(plan, files, current, RevisionBodies(aclPath, preview.aclBody, ListenerBodies(preview.files)), registry)
    ensures HandsOver(plan, preview) <==> LookupsAgree(preview, aclPath)
  {
    hide FilesHash, NulFree, ListenerBodies, ValidListenerId, Reads, InRender, RevisionBodies;
    HashDetectsDrift(preview.files, current.files);
    var bodies := RevisionBodies(aclPath, preview.aclBody, ListenerBodies(preview.files));
    if LookupsAgree(preview, aclPath) {
      forall i | 0 <= i < |current.files|
        ensures PlanFile(current.files[i], files, bodies).body == current.files[i].body
      {
        var f := current.files[i];
        assert (f.path, f.body) in PairSet(current.files);
        var g :| g in preview.files && (g.path, g.body) == (f.path, f.body);
      }
      PlanPairs(plan, files, current, bodies, registry);
    }
    if HandsOver(plan, preview) {
      forall f | f in preview.files && f.path in bodies ensures bodies[f.path] == f.body {
        assert (f.path, f.body) in PairSet(preview.files);
        PlannedPair(plan, files, current, bodies, registry, f.path, f.body);
      }
    }
  }

  /* Every pair of a plan comes from a file of the render, looked up by path. */
  lemma PlannedPair(plan: Plan, files: Files, current: Rendered, bodies: map<string, string>, registry: map<string, string>,
                    path: string, body: string)
    requires |current.files| >= 1 && IsPlan(plan, files, current, bodies, registry)
    requires (path, body) in {(plan.global.path, plan.global.body)} + PlanBodies(plan.listener)
    ensures path in bodies ==> bodies[path] == body
  {
    hide InRender, Reads;
    if (path, body) != (plan.global.path, plan.global.body) {
      var i :| 0 <= i < |plan.listener| && (plan.listener[i].path, plan.listener[i].body) == (path, body);
      assert plan.listener[i] == PlanFile(current.files[i + 1], files, bodies);
    }
  }

  /* Outside the working directory only the path of the broker-wide file can be found. */
  lemma LookupsOutside(r: Rendered, aclPath: string, dir: string)
    requires RenderedFor(r, aclPath, dir) && DirectoryOf(dir, aclPath) && dir != "."
    ensures LookupsAgree(r, aclPath) <==> ListenersApart(r, aclPath)
  {
    hide ListenerBodies, ValidListenerId, ListenerACLPath;
    forall f | f in r.files ensures f.path !in ListenerBodies(r.files) {
      var i :| 0 <= i < |r.files| && r.files[i] == f;
      PathsAreNoIds(r, r, aclPath, dir, i);
    }
    assert r.files[0] in r.files && r.files[0].path == aclPath;
  }

  lemma PlanPairs(plan: Plan, files: Files, current: Rendered, bodies: map<string, string>, registry: map<string, string>)
    requires |current.files| >= 1 && IsPlan(plan, files, current, bodies, registry)
    requires forall i :: 0 <= i < |current.files| ==> PlanFile(current.files[i], files, bodies).body == current.files[i].body
    ensures {(plan.global.path, plan.global.body)} + PlanBodies(plan.listener) == PairSet(current.files)
  {
    hide InRender;
    var lhs := {(plan.global.path, plan.global.body)} + PlanBodies(plan.listener);
    forall p | p in lhs ensures p in PairSet(current.files) {
      if p == (plan.global.path, plan.global.body) {
        assert current.files[0] in current.files;
      } else {
        var i :| 0 <= i < |plan.listener| && (plan.listener[i].path, plan.listener[i].body) == p;
        assert current.files[i + 1] in current.files;
      }
    }
    forall p | p in PairSet(current.files) ensures p in lhs {
      var i :| 0 <= i < |current.files| && (current.files[i].path, current.files[i].body) == p;
      if i > 0 {
        assert plan.listener[i - 1] in plan.listener;
      }
    }
  }

  /* The body stored for a listener of a render is that of its file. */
  lemma {:induction false} ListenerBodiesAt(files: seq<FileRender>, i: nat)
    requires i < |files| && files[i].scope == Listener
    requires forall j :: i < j < |files| ==> files[j].listenerId != files[i].listenerId
    ensures files[i].listenerId in ListenerBodies(files)
    ensures ListenerBodies(files)[files[i].listenerId] == files[i].body
  {
    var n := |files| - 1;
    if i < n {
      ListenerBodiesAt(files[..n], i);
    }
  }

  /* Where a lookup finds another body, the plan of an apply on an empty disk hands it over. */
  lemma MisledPlan(r: Rendered, aclPath: string, dir: string) returns (plan: Plan)
    requires RenderedFor(r, aclPath, dir) && NulFree(r.files) && !LookupsAgree(r, aclPath)
    ensures IsPlan(plan, map[], r, RevisionBodies(aclPath, r.aclBody, ListenerBodies(r.files)), map[])
    ensures !HandsOver(plan, r)
  {
    hide ValidListenerId, ListenerACLPath, FilesHash, NulFree, LookupsAgree, HandsOver, ListenerBodies, RevisionBodies, PlanFile;
    var bodies := RevisionBodies(aclPath, r.aclBody, ListenerBodies(r.files));
    plan := Plan(PlanFile(r.files[0], map[], bodies),
                 seq(|r.files| - 1, k requires 0 <= k < |r.files| - 1 => PlanFile(r.files[k + 1], map[], bodies)), []);
    PlanHandsOverPreview(plan, map[], r, r, aclPath, dir, map[]);
  }

  // ---------------------------------------------------------------- listener ids

  lemma PrefixedIdIsValid(id: string)
    requires ValidListenerId(id) && |id| <= 32
    ensures ValidListenerId("acl." + id)
  {
    var other := "acl." + id;
    forall i | 0 <= i < |other| ensures ListenerIdCharacter(other[i]) {
      assert other[i] == if i < 4 then "acl."[i] else id[i - 4];
    }
  }

  lemma ValidIdNulFree(id: string)
    requires ValidListenerId(id)
    ensures '\0' !in id && '\0' !in "acl." + id
  {
    forall i | 0 <= i < |id| ensures id[i] != '\0' { assert ListenerIdCharacter(id[i]); }
  }

  lemma OneLetterId(id: string)
    requires id == "x"
    ensures ValidListenerId(id)
  {
  }
}
