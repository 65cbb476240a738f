/**
 The file system as the applier sees it: target files, staged temporary files, and the broker's reload
 signal. Every primitive may fail; `faults` counts the failures, `removalFaults` those of best-effort
 clean-up.
 */
module Disks {
  type Files = map<string, string>

  /* A missing file reads as the empty string. */
  function Reads(files: Files, path: string): string {
    if path in files then files[path] else ""
  }

  /* What is kept of a run: staging that failed, and a staged content that was to replace a file. */
  datatype Event = StageFault | Put(path: string, content: string)

  class Disk {
    var files: Files
    var temps: map<nat, string>
    /* The files in place at each reload signal the broker was sent. */
    var reloads: seq<Files>
    ghost var faults: nat
    ghost var removalFaults: nat
    ghost var trace: seq<Event>

    constructor (files: Files)
      ensures this.files == files && temps == map[] && reloads == [] && faults == removalFaults == 0 && trace == []
    {
      this.files, temps, reloads := files, map[], [];
      faults, removalFaults, trace := 0, 0, [];
    }

    method Read(path: string) returns (ok: bool, content: string)
      modifies `faults
      ensures if ok then content == Reads(files, path) && faults == old(faults) else faults == old(faults) + 1
    {
      if * {
        faults := faults + 1;
        return false, "";
      }
      return true, Reads(files, path);
    }

    method CreateTemp() returns (ok: bool, name: nat)
      modifies `temps, `faults, `trace
      ensures ok ==> name !in old(temps) && temps == old(temps)[name := ""] && faults == old(faults)
      ensures !ok ==> temps == old(temps) && faults == old(faults) + 1
      ensures trace == old(trace) + if ok then [] else [StageFault]
    {
      if * {
        faults, trace := faults + 1, trace + [StageFault];
        return false, 0;
      }
      FreshNameExists(temps.Keys);
      name :| name !in temps;
      temps := temps[name := ""];
      ok := true;
    }

    /* A failed write leaves some part of the content behind. */
    method WriteTemp(name: nat, content: string) returns (ok: bool)
      requires name in temps
      modifies `temps, `faults, `trace
      ensures ok ==> temps == old(temps)[name := content] && faults == old(faults)
      ensures !ok ==> temps - {name} == old(temps) - {name} && faults == old(faults) + 1
      ensures trace == old(trace) + if ok then [] else [StageFault]
    {
      if * {
        var written :| 0 <= written <= |content|;
        temps := temps[name := content[..written]];
        faults, trace := faults + 1, trace + [StageFault];
        return false;
      }
      temps := temps[name := content];
      ok := true;
    }

    /* Setting the mode, flushing or closing a staged file. */
    method SettleTemp() returns (ok: bool)
      modifies `faults, `trace
      ensures faults == if ok then old(faults) else old(faults) + 1
      ensures trace == old(trace) + if ok then [] else [StageFault]
    {
      if * {
        faults, trace := faults + 1, trace + [StageFault];
        return false;
      }
      ok := true;
    }

    /* Best-effort clean-up: a failure is only logged. */
    method RemoveTemp(name: nat)
      modifies `temps, `removalFaults
      ensures || (temps == old(temps) - {name} && removalFaults == old(removalFaults))
              || (temps == old(temps) && removalFaults == old(removalFaults) + 1)
    {
      if * {
        removalFaults := removalFaults + 1;
      } else {
        temps := temps - {name};
      }
    }

    method Rename(name: nat, path: string) returns (ok: bool)
      requires name in temps
      modifies `files, `temps, `faults, `trace
      ensures trace == old(trace) + [Put(path, old(temps)[name])]
      ensures ok ==> files == old(files)[path := old(temps)[name]] && temps == old(temps) - {name} && faults == old(faults)
      ensures !ok ==> files == old(files) && temps == old(temps) && faults == old(faults) + 1
    {
      trace := trace + [Put(path, temps[name])];
      if * {
        faults := faults + 1;
        return false;
      }
      files, temps := files[path := temps[name]], temps - {name};
      ok := true;
    }

    /* Removing a file that is not there is not a failure. */
    method Remove(path: string) returns (ok: bool)
      modifies `files, `faults
      ensures ok ==> files == old(files) - {path} && faults == old(faults)
      ensures !ok ==> files == old(files) && faults == old(faults) + 1
    {
      if * {
        faults := faults + 1;
        return false;
      }
      files := files - {path};
      ok := true;
    }

    method Reload() returns (ok: bool)
      modifies `reloads, `faults
      ensures ok ==> reloads == old(reloads) + [files] && faults == old(faults)
      ensures !ok ==> (reloads == old(reloads) || reloads == old(reloads) + [files]) && faults == old(faults) + 1
    {
      if * {
        faults := faults + 1;
        if * {
          reloads := reloads + [files];
        }
        return false;
      }
      reloads := reloads + [files];
      ok := true;
    }
  }

  lemma {:induction false} FreshNameExists(names: set<nat>)
    ensures exists n: nat :: n !in names
  {
    var n := NameAbove(names);
    assert n !in names;
  }

  lemma {:induction false} NameAbove(names: set<nat>) returns (n: nat)
    ensures forall x :: x in names ==> x < n
    decreases |names|
  {
    if names == {} {
      n := 0;
    } else {
      var x :| x in names;
      n := NameAbove(names - {x});
      n := if n <= x then x + 1 else n;
      assert forall y :: y in names ==> y == x || y in names - {x};
    }
  }
}
