/**
 The apply service of the listener configuration (internal/listener/listener_service.go): a
 lock-and-flag protocol over stored previews, with a snapshot of the broker configuration, its
 restoration and a compensating restart.

 Every method of the class is one atomic step: a section under the mutex, or one call of a
 collaborator. `Interleave` runs any number of steps of any number of calls in any order.
 */
module Listener {

  type Rows = seq<string>
  type Bytes = string

  /* A stored preview; `Absent` is what a map lookup yields for a revision that is gone. */
  datatype Preview = Preview(rows: Rows, needsRestart: bool, consumed: bool, expires: int)

  const ZERO_TIME := 0
  const PREVIEW_TTL := 3600

  const ABSENT := Preview([], false, false, ZERO_TIME)

  /* Where a call that has claimed the apply is. */
  datatype Point =
    | Resolving
    | Snapshotting
    | Writing
    | Restarting
    | Storing
    | Marking
    | Restoring(restart: bool)
    | Recovering
    | Releasing(failed: bool)

  /* A call in the body: its revision, the rows it copied, the bytes they render to, the bytes it
     snapshotted, and whether a restoration or a restart of it failed. */
  datatype Call = Call(
    revision: string, rows: Rows, rendered: Bytes, snapshot: Bytes,
    point: Point, restoreFailed: bool, restartFailed: bool)

  datatype Answer =
    | NotFound | Expired | AlreadyConsumed | NotConfirmed | InProgress
    | Claimed

  predicate NoRepeats(revisions: seq<string>) {
    forall i, j :: 0 <= i < j < |revisions| ==> revisions[i] != revisions[j]
  }

  lemma NoRepeatsSnoc(revisions: seq<string>, revision: string)
    requires NoRepeats(revisions) && revision !in revisions
    ensures NoRepeats(revisions + [revision])
  {
  }

  class ListenerService {
    /* Whether a conf writer is configured. */
    const writer: bool
    var previews: map<string, Preview>
    var inProgress: bool
    /* The bytes of the broker configuration, the stored specs, and the bytes the broker runs. */
    var conf: Bytes
    var specs: Rows
    var running: Bytes
    /* The calls between the claim and the release of the flag. */
    var calls: map<nat, Call>
    /* The revisions the generator handed out: it never repeats one. */
    var issued: set<string>
    /* The revisions whose rows were stored, in order. */
    ghost var stored: seq<string>
    /* What was in place when the call in the body claimed the apply. */
    ghost var confBefore: Bytes
    ghost var specsBefore: Rows
    ghost var runningBefore: Bytes
    ghost var storedBefore: seq<string>
    /* How many steps failed, in all and when the call in the body claimed the apply. */
    ghost var faults: nat
    ghost var faultsBefore: nat

    /* At most one call is in the body, and the flag says so. */
    ghost predicate Exclusive()
      reads `calls, `inProgress
    {
      && (forall a, b :: a in calls && b in calls ==> a == b)
      && (inProgress <==> calls != map[])
    }

    /* No revision is stored twice, and none that was stored can be claimed again. */
    ghost predicate OneShot()
      reads `previews, `calls, `issued, `stored
    {
      && NoRepeats(stored)
      && (forall revision :: revision in stored ==> revision in issued)
      && (forall revision :: revision in previews ==> revision in issued)
      && (forall t :: t in calls ==> calls[t].revision in issued)
      && (forall revision :: revision in stored && revision in previews && !previews[revision].consumed ==>
            exists t :: t in calls && calls[t].revision == revision && calls[t].point == Marking)
      && (forall t :: t in calls && Early(calls[t].point) ==> calls[t].revision !in stored)
    }

    /* What the configuration, the specs and the broker are while a call is at a point. */
    ghost predicate InPlace(call: Call)
      reads `conf, `specs, `running, `stored, `faults
      reads `confBefore, `specsBefore, `runningBefore, `storedBefore, `faultsBefore
    {
      && faults >= faultsBefore
      && (faults > faultsBefore <==> Failing(call.point))
      && stored == (if Stored(call.point) then storedBefore + [call.revision] else storedBefore)
      && match call.point
      case Resolving => Untouched() && !call.restartFailed
      case Snapshotting => Untouched() && !call.restartFailed && writer
      case Writing => Untouched() && !call.restartFailed && call.snapshot == confBefore && writer
      case Restarting =>
        && specs == specsBefore && running == runningBefore && !call.restartFailed
        && conf == (if writer then call.rendered else confBefore)
        && (writer ==> call.snapshot == confBefore)
      case Storing =>
        && specs == specsBefore && running == conf && !call.restartFailed
        && conf == (if writer then call.rendered else confBefore)
        && (writer ==> call.snapshot == confBefore)
      case Restoring(restart) =>
        && specs == specsBefore && writer && call.snapshot == confBefore
        && (!restart && !call.restartFailed ==> running == runningBefore)
        && (restart ==> !call.restartFailed)
      case Recovering => specs == specsBefore && conf == confBefore && !call.restartFailed && writer
      case Marking =>
        && specs == call.rows && running == conf
        && conf == (if writer then call.rendered else confBefore)
      case Releasing(failed) =>
        if failed then
          && specs == specsBefore
          && (!call.restoreFailed ==> conf == confBefore)
          && (!call.restoreFailed && !call.restartFailed && runningBefore == confBefore ==> running == conf)
        else
          && specs == call.rows && running == conf
          && conf == (if writer then call.rendered else confBefore)
    }

    ghost predicate Untouched()
      reads `conf, `specs, `running, `confBefore, `specsBefore, `runningBefore
    {
      conf == confBefore && specs == specsBefore && running == runningBefore
    }

    ghost predicate Valid()
      reads this
    {
      && Exclusive()
      && OneShot()
      && (forall t :: t in calls ==> InPlace(calls[t]) && (calls[t].restoreFailed ==> calls[t].point == Releasing(true)))
    }

    constructor (writer: bool, conf: Bytes, specs: Rows)
      ensures Valid() && this.writer == writer && this.conf == conf && this.specs == specs && stored == []
    {
      this.writer := writer;
      previews, inProgress, calls := map[], false, map[];
      this.conf, this.specs, running := conf, specs, conf;
      issued, stored := {}, [];
      confBefore, specsBefore, runningBefore, storedBefore := conf, specs, conf, [];
      faults, faultsBefore := 0, 0;
    }

    /* The storing part of a preview, under the mutex. Revisions are fresh. */
    method StorePreview(revision: string, rows: Rows, needsRestart: bool, now: int)
      requires Valid() && revision !in issued
      modifies `previews, `issued
      ensures Valid()
      ensures previews == (map id | id in old(previews) && now <= old(previews)[id].expires :: old(previews)[id])
                          [revision := Preview(rows, needsRestart, false, now + PREVIEW_TTL)]
      ensures issued == old(issued) + {revision}
    {
      CollectPreviews(now);
      previews := previews[revision := Preview(rows, needsRestart, false, now + PREVIEW_TTL)];
      issued := issued + {revision};
    }

    /* The previews past their expiry are forgotten, a consumed one included. */
    method CollectPreviews(now: int)
      modifies `previews
      ensures previews == map id | id in old(previews) && now <= old(previews)[id].expires :: old(previews)[id]
    {
      var rest := previews.Keys;
      while rest != {}
        invariant rest <= old(previews).Keys
        invariant previews == map id | id in old(previews) && (id in rest || now <= old(previews)[id].expires) :: old(previews)[id]
      {
        var id :| id in rest;
        if now > previews[id].expires {
          previews := previews - {id};
        }
        rest := rest - {id};
      }
    }

    /* The first section of an apply under the mutex. */
    method Claim(call: nat, revision: string, confirm: bool, now: int) returns (answer: Answer)
      requires Valid() && call !in calls
      modifies `previews, `inProgress, `calls, `confBefore, `specsBefore, `runningBefore, `storedBefore, `faultsBefore
      ensures Valid()
      ensures answer == NotFound <==> revision !in old(previews)
      ensures answer == Expired <==> revision in old(previews) && now > old(previews)[revision].expires
      ensures answer == AlreadyConsumed <==> Current(old(previews), revision, now) && old(previews)[revision].consumed
      ensures answer == NotConfirmed <==>
                && Current(old(previews), revision, now) && !old(previews)[revision].consumed
                && old(previews)[revision].needsRestart && !confirm
      ensures answer == InProgress <==>
                && Current(old(previews), revision, now) && !old(previews)[revision].consumed
                && (old(previews)[revision].needsRestart ==> confirm) && old(inProgress)
      ensures answer == Claimed <==>
                && Current(old(previews), revision, now) && !old(previews)[revision].consumed
                && (old(previews)[revision].needsRestart ==> confirm) && !old(inProgress)
      ensures answer == Claimed ==>
                && revision !in stored && storedBefore == stored && faultsBefore == faults && Untouched() && inProgress
                && calls == map[call := Call(revision, old(previews)[revision].rows, "", "", Resolving, false, false)]
      ensures answer != Claimed ==>
                && calls == old(calls) && inProgress == old(inProgress)
                && confBefore == old(confBefore) && specsBefore == old(specsBefore) && runningBefore == old(runningBefore)
                && storedBefore == old(storedBefore) && faultsBefore == old(faultsBefore)
      ensures previews == if answer == Expired then old(previews) - {revision} else old(previews)
    {
      hide NoRepeats;
      if revision !in previews {
        return NotFound;
      }
      var entry := previews[revision];
      if now > entry.expires {
        previews := previews - {revision};
        return Expired;
      }
      if entry.consumed {
        return AlreadyConsumed;
      }
      if entry.needsRestart && !confirm {
        return NotConfirmed;
      }
      if inProgress {
        return InProgress;
      }
      Enter(call, revision, entry);
      return Claimed;
    }

    method Enter(call: nat, revision: string, entry: Preview)
      requires Valid() && !inProgress && revision in previews && previews[revision] == entry && !entry.consumed
      modifies `inProgress, `calls, `confBefore, `specsBefore, `runningBefore, `storedBefore, `faultsBefore
      ensures Valid()
      ensures revision !in stored && storedBefore == stored && faultsBefore == faults && Untouched() && inProgress
      ensures calls == map[call := Call(revision, entry.rows, "", "", Resolving, false, false)]
    {
      hide NoRepeats, InPlace;
      NothingOpen();
      inProgress := true;
      confBefore, specsBefore, runningBefore, storedBefore, faultsBefore := conf, specs, running, stored, faults;
      calls := map[call := Call(revision, entry.rows, "", "", Resolving, false, false)];
      assert call in calls;
      EnteredInPlace(calls[call]);
    }

    lemma NothingOpen()
      requires Valid() && !inProgress
      ensures calls == map[]
      ensures forall revision :: revision in stored && revision in previews ==> previews[revision].consumed
    {
      hide NoRepeats, InPlace;
    }

    lemma EnteredInPlace(call: Call)
      requires call.point == Resolving && !call.restartFailed
      requires Untouched() && stored == storedBefore && faults == faultsBefore
      ensures InPlace(call)
    {
    }

    /* A step of the call in the body: only its own entry changes. */
    method Move(t: nat, next: Call)
      requires Exclusive() && OneShot() && t in calls
      requires next.revision == calls[t].revision && next.rows == calls[t].rows
      requires calls[t].point != Marking && (Early(next.point) ==> Early(calls[t].point))
      requires InPlace(next) && (next.restoreFailed ==> next.point == Releasing(true))
      modifies `calls
      ensures Valid() && calls == old(calls)[t := next]
    {
      hide NoRepeats, InPlace;
      calls := calls[t := next];
    }

    /* Decoding the rows and resolving the certificate material, which fixes what is rendered. */
    method Resolve(t: nat)
      requires Valid() && t in calls && calls[t].point == Resolving
      modifies `calls, `faults
      ensures Valid() && Continues(old(calls), calls, t) && Fails(old(faults), faults, calls[t].point)
    {
      hide OneShot;
      if * {
        faults := faults + 1;
        Move(t, calls[t].(point := Releasing(true)));
      } else {
        var rendered: Bytes := *;
        Move(t, calls[t].(point := if writer then Snapshotting else Restarting, rendered := rendered));
      }
    }

    method Snapshot(t: nat)
      requires Valid() && t in calls && calls[t].point == Snapshotting && writer
      modifies `calls, `faults
      ensures Valid() && Continues(old(calls), calls, t) && Fails(old(faults), faults, calls[t].point)
    {
      hide OneShot;
      if * {
        faults := faults + 1;
        Move(t, calls[t].(point := Releasing(true)));
      } else {
        Move(t, calls[t].(point := Writing, snapshot := conf));
      }
    }

    /* A write that fails may have left any bytes behind. */
    method Write(t: nat)
      requires Valid() && t in calls && calls[t].point == Writing
      modifies `calls, `conf, `faults
      ensures Valid() && Continues(old(calls), calls, t) && Fails(old(faults), faults, calls[t].point)
    {
      hide OneShot;
      if * {
        faults := faults + 1;
        conf := *;
        Move(t, calls[t].(point := Restoring(false)));
      } else {
        conf := calls[t].rendered;
        Move(t, calls[t].(point := Restarting));
      }
    }

    /* After a restart that fails, nothing is known of what the broker runs. */
    method Restart(t: nat)
      requires Valid() && t in calls && calls[t].point == Restarting
      modifies `calls, `running, `faults
      ensures Valid() && Continues(old(calls), calls, t) && Fails(old(faults), faults, calls[t].point)
    {
      hide OneShot;
      if * {
        faults := faults + 1;
        running := *;
        Move(t, calls[t].(point := if writer then Restoring(false) else Releasing(true), restartFailed := true));
      } else {
        running := conf;
        Move(t, calls[t].(point := Storing));
      }
    }

    /* The rows are replaced atomically, or not at all. */
    method ReplaceAll(t: nat)
      requires Valid() && t in calls && calls[t].point == Storing
      modifies `calls, `specs, `stored, `faults
      ensures Valid() && Continues(old(calls), calls, t) && Fails(old(faults), faults, calls[t].point)
      ensures stored == old(stored) || stored == old(stored) + [old(calls)[t].revision]
      ensures specs == if stored == old(stored) then old(specs) else old(calls)[t].rows
    {
      if * {
        hide OneShot, Early;
        NotYetStored(t);
        faults := faults + 1;
        Move(t, calls[t].(point := if writer then Restoring(true) else Releasing(true)));
      } else {
        hide Valid;
        StoreRows(t);
      }
    }

    method StoreRows(t: nat)
      requires Valid() && t in calls && calls[t].point == Storing
      modifies `calls, `specs, `stored
      ensures Valid() && calls == old(calls)[t := old(calls)[t].(point := Marking)]
      ensures stored == old(stored) + [old(calls)[t].revision] && specs == old(calls)[t].rows
    {
      hide NoRepeats, Early;
      NotYetStored(t);
      NoRepeatsSnoc(stored, calls[t].revision);
      specs := calls[t].rows;
      stored := stored + [calls[t].revision];
      calls := calls[t := calls[t].(point := Marking)];
    }

    lemma NotYetStored(t: nat)
      requires Valid() && t in calls && calls[t].point == Storing
      ensures calls[t].revision !in stored
      ensures Early(Storing) && forall point: Point :: point.Marking? || point.Restoring? || point.Releasing? ==> !Early(point)
    {
    }

    method Restore(t: nat)
      requires Valid() && t in calls && calls[t].point.Restoring?
      modifies `calls, `conf, `faults
      ensures Valid() && Continues(old(calls), calls, t) && old(faults) <= faults <= old(faults) + 1
    {
      hide OneShot;
      if * {
        faults := faults + 1;
        conf := *;
        Move(t, calls[t].(point := Releasing(true), restoreFailed := true));
      } else {
        conf := calls[t].snapshot;
        Move(t, calls[t].(point := if calls[t].point.restart then Recovering else Releasing(true)));
      }
    }

    /* The compensating restart, on the restored bytes. */
    method Recover(t: nat)
      requires Valid() && t in calls && calls[t].point == Recovering
      modifies `calls, `running, `faults
      ensures Valid() && Continues(old(calls), calls, t) && old(faults) <= faults <= old(faults) + 1
    {
      hide OneShot;
      if * {
        faults := faults + 1;
        running := *;
        Move(t, calls[t].(point := Releasing(true), restartFailed := true));
      } else {
        running := conf;
        Move(t, calls[t].(point := Releasing(true)));
      }
    }

    /* The second section under the mutex. A preview collected meanwhile comes back as an entry
       without rows and without a life, but consumed. */
    method MarkConsumed(t: nat)
      requires Valid() && t in calls && calls[t].point == Marking
      modifies `calls, `previews
      ensures Valid() && Continues(old(calls), calls, t)
      ensures var revision := old(calls)[t].revision;
              var entry := if revision in old(previews) then old(previews)[revision] else ABSENT;
              previews == old(previews)[revision := entry.(consumed := true)]
    {
      hide NoRepeats;
      var revision := calls[t].revision;
      var entry := if revision in previews then previews[revision] else ABSENT;
      previews := previews[revision := entry.(consumed := true)];
      calls := calls[t := calls[t].(point := Releasing(false))];
    }

    /* The deferred section: the flag is cleared whatever happened, and only now. */
    method Release(t: nat) returns (call: Call)
      requires Valid() && t in calls && calls[t].point.Releasing?
      modifies `calls, `inProgress
      ensures Valid() && calls == map[] && !inProgress && call == old(calls)[t]
      ensures call.point.failed ==> specs == specsBefore && (!call.restoreFailed ==> conf == confBefore)
      ensures call.point.failed && !call.restoreFailed && !call.restartFailed && runningBefore == confBefore ==> running == confBefore
      ensures !call.point.failed ==> specs == call.rows && running == conf && conf == if writer then call.rendered else confBefore
      ensures stored == if call.point.failed then storedBefore else storedBefore + [call.revision]
      ensures call.point.failed <==> faults > faultsBefore
    {
      hide NoRepeats;
      call := calls[t];
      calls := map[];
      inProgress := false;
    }

    // -------------------------------------------------------------- runs

    /* Whatever step the call in the body is at. */
    method Advance(t: nat)
      requires Valid() && t in calls && !calls[t].point.Releasing?
      modifies `calls, `conf, `specs, `running, `previews, `stored, `faults
      ensures Valid() && Continues(old(calls), calls, t)
      ensures inProgress == old(inProgress) && issued == old(issued)
      ensures old(stored) <= stored && old(faults) <= faults
    {
      hide Valid;
      PlaceOfWriter(t);
      match calls[t].point
      case Resolving => Resolve(t);
      case Snapshotting => Snapshot(t);
      case Writing => Write(t);
      case Restarting => Restart(t);
      case Storing => ReplaceAll(t);
      case Marking => MarkConsumed(t);
      case Restoring(_) => Restore(t);
      case Recovering => Recover(t);
    }

    /* Steps of everybody else while one call is in the body: previews come and go, and every
       other apply is turned away. */
    method Others(t: nat, steps: nat)
      requires Valid() && t in calls
      modifies `previews, `issued, `calls, `inProgress
      modifies `confBefore, `specsBefore, `runningBefore, `storedBefore, `faultsBefore
      ensures Valid() && calls == old(calls) && inProgress
      ensures Before() == old(Before())
    {
      hide OneShot, InPlace;
      for i := 0 to steps
        invariant Valid() && calls == old(calls) && inProgress
        invariant Before() == old(Before())
      {
        var revision: string := *;
        var now: int := *;
        if * {
          if revision !in issued {
            var rows: Rows := *;
            var needsRestart: bool := *;
            StorePreview(revision, rows, needsRestart, now);
          }
        } else {
          var other: nat := *;
          if other !in calls {
            var answer := Claim(other, revision, true, now);
          }
        }
      }
    }

    ghost function Before(): (Bytes, Rows, Bytes, seq<string>, nat)
      reads `confBefore, `specsBefore, `runningBefore, `storedBefore, `faultsBefore
    {
      (confBefore, specsBefore, runningBefore, storedBefore, faultsBefore)
    }

    /* What is left of a claimed apply, with the steps of everybody else in between. */
    method Finish(t: nat) returns (end: Call)
      requires Valid() && t in calls
      modifies this
      ensures Valid() && old(stored) <= stored && old(faults) <= faults
      ensures end.point.Releasing? && calls == map[]
      ensures end.revision == old(calls[t].revision) && end.rows == old(calls[t].rows)
      ensures end.point.failed <==> faults > old(faultsBefore)
      ensures stored == if end.point.failed then old(storedBefore) else old(storedBefore) + [end.revision]
      ensures end.point.failed ==> specs == old(specsBefore) && (!end.restoreFailed ==> conf == old(confBefore))
      ensures end.point.failed && !end.restoreFailed && !end.restartFailed && old(runningBefore) == old(confBefore) ==>
                running == conf
      ensures !end.point.failed ==>
                && specs == end.rows && running == conf
                && conf == (if writer then end.rendered else old(confBefore))
    {
      hide Valid, OneShot, InPlace, NoRepeats;
      ghost var revision, rows := calls[t].revision, calls[t].rows;
      while !calls[t].point.Releasing?
        invariant Valid() && t in calls && calls[t].revision == revision && calls[t].rows == rows
        invariant Before() == old(Before())
        invariant old(stored) <= stored && old(faults) <= faults
        decreases Rank(calls[t].point)
      {
        var steps: nat := *;
        Others(t, steps);
        Advance(t);
      }
      var steps: nat := *;
      Others(t, steps);
      end := Release(t);
    }

    /* One apply from its claim to its release, with the steps of everybody else in between. A claimed
       apply fails exactly when one of its steps does. One that succeeds stores the rows of its preview,
       which were never stored before. One that fails without a failed restoration leaves the configuration and the specs as they were, and
       when no restart failed either, the broker runs what it ran. */
    method Apply(t: nat, revision: string, confirm: bool, now: int) returns (answer: Answer, end: Call)
      requires Valid() && t !in calls
      modifies this
      ensures Valid() && old(stored) <= stored && old(faults) <= faults
      ensures answer == Claimed <==>
                && Current(old(previews), revision, now) && !old(previews)[revision].consumed
                && (old(previews)[revision].needsRestart ==> confirm) && !old(inProgress)
      ensures answer != Claimed ==>
                conf == old(conf) && specs == old(specs) && running == old(running) && stored == old(stored) && calls == old(calls)
                && faults == old(faults)
      ensures answer == Claimed ==>
                && revision in old(previews) && revision !in old(stored) && end.point.Releasing? && calls == map[]
                && (end.point.failed <==> faults > old(faults))
                && (end.point.failed ==> specs == old(specs) && stored == old(stored))
                && (end.point.failed && !end.restoreFailed ==> conf == old(conf))
                && (end.point.failed && !end.restoreFailed && !end.restartFailed && old(running) == old(conf) ==> running == conf)
                && (!end.point.failed ==>
                      && specs == old(previews)[revision].rows && stored == old(stored) + [revision]
                      && running == conf && conf == (if writer then end.rendered else old(conf)))
    {
      hide Valid, OneShot, InPlace, NoRepeats;
      end := Call(revision, [], "", "", Resolving, false, false);
      answer := Claim(t, revision, confirm, now);
      if answer == Claimed {
        end := Finish(t);
      }
    }

    /* Any number of steps of any number of calls, in any order. */
    method Interleave(steps: nat)
      requires Valid()
      modifies this
      ensures Valid()
      ensures old(stored) <= stored && NoRepeats(stored)
      ensures forall a, b :: a in calls && b in calls ==> a == b
    {
      hide OneShot, InPlace, NoRepeats;
      for i := 0 to steps
        invariant Valid() && old(stored) <= stored
      {
        var t: nat := *;
        var revision: string := *;
        var now: int := *;
        var flag: bool := *;
        if t in calls {
          if calls[t].point.Releasing? {
            var call := Release(t);
          } else {
            Advance(t);
          }
        } else if * {
          var answer := Claim(t, revision, flag, now);
        } else if revision !in issued {
          var rows: Rows := *;
          StorePreview(revision, rows, flag, now);
        }
      }
      NothingTwice();
    }

    lemma NothingTwice()
      requires Valid()
      ensures NoRepeats(stored)
    {
    }

    lemma PlaceOfWriter(t: nat)
      requires Valid() && t in calls
      ensures calls[t].point == Snapshotting ==> writer
    {
    }
  }

  /* The points before the rows are stored. */
  predicate Early(point: Point) {
    point in {Resolving, Snapshotting, Writing, Restarting, Storing}
  }

  /* The points at which the rows are stored. */
  predicate Stored(point: Point) {
    point in {Marking, Releasing(false)}
  }

  /* The points that only a step that failed leads to. */
  predicate Failing(point: Point) {
    point.Restoring? || point == Recovering || point == Releasing(true)
  }

  /* A step that fails is counted and leaves the way to a release without failure. */
  predicate Fails(before: nat, after: nat, point: Point) {
    (after == before && !Failing(point)) || (after == before + 1 && Failing(point))
  }

  /* A preview that is stored and has not expired. */
  predicate Current(previews: map<string, Preview>, revision: string, now: int) {
    revision in previews && now <= previews[revision].expires
  }

  /* Every step of a call brings it nearer to the release. */
  function Rank(point: Point): nat {
    match point
    case Resolving => 7
    case Snapshotting => 6
    case Writing => 5
    case Restarting => 4
    case Storing => 3
    case Marking => 2
    case Restoring(_) => 2
    case Recovering => 1
    case Releasing(_) => 0
  }

  /* A step of one call: the same call, with its revision and its rows, and no other. */
  predicate Continues(before: map<nat, Call>, after: map<nat, Call>, t: nat) {
    && t in before && t in after && after == before[t := after[t]]
    && after[t].revision == before[t].revision && after[t].rows == before[t].rows
    && Rank(after[t].point) < Rank(before[t].point)
  }
}
