/**
 The file source of the broker log (`FileSource`, internal/brokerlog/source.go). What it holds
 between polls depends only on the bytes consumed since reading last began at the first byte:
 neither the poll boundaries nor a cancelled poll can be seen in it.
 */
module LogSource {
  import opened Strings
  import opened Options
  import opened BrokerLog

  const MAX_ALLOWED_ENTRIES := 10000
  const MAX_ALLOWED_MESSAGE_BYTES := 64 * 1024
  const MAX_ALLOWED_POLL_BYTES := 1024 * 1024
  const MAX_ALLOWED_AGE := 365 * 24 * 3600
  const MAX_FILTER_PATTERNS := 32
  const MAX_FILTER_PATTERN_BYTES := 256

  datatype Limits = Limits(maxEntries: int, maxPerRead: int, maxMessage: int, maxAge: int, maxBytes: int)

  predicate Accepted(limits: Limits) {
    && 1 <= limits.maxEntries <= MAX_ALLOWED_ENTRIES
    && 1 <= limits.maxPerRead <= limits.maxEntries
    && 1 <= limits.maxMessage <= MAX_ALLOWED_MESSAGE_BYTES
    && 0 < limits.maxAge <= MAX_ALLOWED_AGE
    && 1 <= limits.maxBytes <= MAX_ALLOWED_POLL_BYTES
  }

  /* The longest line that is kept. */
  function LineLimit(limits: Limits): nat
    requires Accepted(limits)
  {
    limits.maxMessage + MAX_LINE_OVERHEAD
  }

  /* What is at the path of the log when a poll begins. */
  datatype Found = Missing | Refused | File(id: nat, content: string)

  datatype ReadResult = Failed | Unavailable | Available(entries: seq<Entry>)

  predicate ValidFilter(filter: Filter) {
    && Minimum(filter).Rank() >= 0
    && |filter.includes| <= MAX_FILTER_PATTERNS && |filter.excludes| <= MAX_FILTER_PATTERNS
    && (forall p :: p in filter.includes + filter.excludes ==> |p| <= MAX_FILTER_PATTERN_BYTES)
  }

  // ---------------------------------------------------------------- history and state

  /* The lines emitted since reading last began at the first byte. */
  function LinesSince(events: seq<Event>): seq<string> {
    if events == [] then []
    else
      var n := |events| - 1;
      match events[n]
      case Line(line, _) => LinesSince(events[..n]) + [line]
      case Poll(_) => LinesSince(events[..n])
      case Restart => []
  }

  function FreshEntries(entries: seq<Entry>, now: int, age: int): seq<Entry> {
    if entries == [] then []
    else
      var n := |entries| - 1;
      var rest := FreshEntries(entries[..n], now, age);
      if Fresh(entries[n], now, age) then rest + [entries[n]] else rest
  }

  predicate Located(events: seq<Event>, ids: seq<nat>) {
    forall id :: id in ids ==> id < |events| && events[id].Line?
  }

  function EntriesAt(parse: Parser, events: seq<Event>, ids: seq<nat>): (entries: seq<Entry>)
    requires Located(events, ids)
    ensures |entries| == |ids|
    ensures forall i :: 0 <= i < |ids| ==> ids[i] in ids && entries[i] == EntryAt(parse, events, ids[i])
  {
    seq(|ids|, i requires 0 <= i < |ids| => assert ids[i] in ids; EntryAt(parse, events, ids[i]))
  }

  lemma EntriesAtSnoc(parse: Parser, events: seq<Event>, ids: seq<nat>, id: nat)
    requires Located(events, ids) && id < |events| && events[id].Line?
    ensures Located(events, ids + [id])
    ensures EntriesAt(parse, events, ids + [id]) == EntriesAt(parse, events, ids) + [EntryAt(parse, events, id)]
  {
    hide EntryAt;
    assert forall x :: x in ids + [id] ==> x in ids || x == id;
    forall i | 0 <= i < |ids| ensures EntriesAt(parse, events, ids + [id])[i] == EntriesAt(parse, events, ids)[i] {
      assert (ids + [id])[i] == ids[i];
    }
    assert (ids + [id])[|ids|] == id;
  }

  lemma FreshEntriesSnoc(entries: seq<Entry>, entry: Entry, now: int, age: int)
    ensures FreshEntries(entries + [entry], now, age)
         == if Fresh(entry, now, age) then FreshEntries(entries, now, age) + [entry] else FreshEntries(entries, now, age)
  {
    assert (entries + [entry])[..|entries|] == entries;
  }

  lemma FreshIdsSnoc(parse: Parser, events: seq<Event>, ids: seq<nat>, id: nat, now: int, age: int)
    requires Located(events, ids) && Located(events, ids + [id]) && id < |events| && events[id].Line?
    ensures FreshIds(parse, events, ids + [id], now, age)
         == if Fresh(EntryAt(parse, events, id), now, age) then FreshIds(parse, events, ids, now, age) + [id]
            else FreshIds(parse, events, ids, now, age)
  {
    hide EntryAt, Fresh;
    assert (ids + [id])[..|ids|] == ids;
  }

  lemma {:induction false} FreshEntriesAt(parse: Parser, events: seq<Event>, ids: seq<nat>, now: int, age: int)
    requires Located(events, ids)
    ensures FreshEntries(EntriesAt(parse, events, ids), now, age)
         == EntriesAt(parse, events, FreshIds(parse, events, ids, now, age))
  {
    hide Fresh, EntryAt, FreshEntries, FreshIds;
    if ids == [] {
      NothingFresh(parse, events, now, age);
    } else {
      var front, id := ids[..|ids| - 1], ids[|ids| - 1];
      assert ids == front + [id];
      assert id in ids && forall x :: x in front ==> x in ids;
      FreshEntriesAt(parse, events, front, now, age);
      FreshStep(parse, events, front, id, now, age);
    }
  }

  lemma NothingFresh(parse: Parser, events: seq<Event>, now: int, age: int)
    ensures EntriesAt(parse, events, []) == [] && FreshEntries([], now, age) == []
    ensures FreshIds(parse, events, [], now, age) == []
  {
  }

  lemma FreshStep(parse: Parser, events: seq<Event>, ids: seq<nat>, id: nat, now: int, age: int)
    requires Located(events, ids) && Located(events, ids + [id]) && id < |events| && events[id].Line?
    requires FreshEntries(EntriesAt(parse, events, ids), now, age)
          == EntriesAt(parse, events, FreshIds(parse, events, ids, now, age))
    ensures FreshEntries(EntriesAt(parse, events, ids + [id]), now, age)
         == EntriesAt(parse, events, FreshIds(parse, events, ids + [id], now, age))
  {
    hide Fresh, EntryAt, FreshEntries, FreshIds, EntriesAt;
    EntriesAtSnoc(parse, events, ids, id);
    FreshEntriesSnoc(EntriesAt(parse, events, ids), EntryAt(parse, events, id), now, age);
    FreshIdsSnoc(parse, events, ids, id, now, age);
    if Fresh(EntryAt(parse, events, id), now, age) {
      EntriesAtSnoc(parse, events, FreshIds(parse, events, ids, now, age), id);
    }
  }

  /* The entries a history leaves in the ring. */
  function RingEntries(parse: Parser, events: seq<Event>, capacity: nat, age: int): seq<Entry>
    requires capacity >= 1
  {
    EntriesAt(parse, events, Ring(parse, events, capacity, age))
  }

  lemma RingOfLine(parse: Parser, events: seq<Event>, capacity: nat, age: int, line: string, now: int)
    requires capacity >= 1
    ensures Ring(parse, events + [Line(line, now)], capacity, age)
         == Newest<nat>(Ring(parse, events, capacity, age), capacity - 1) + [|events|]
  {
    hide FreshIds;
    assert (events + [Line(line, now)])[..|events|] == events;
    RingOrdered(parse, events, capacity, age);
  }

  lemma LaterEntriesAt(parse: Parser, events: seq<Event>, more: seq<Event>, ids: seq<nat>, k: nat)
    requires Located(events, ids) && events <= more && k <= |ids|
    requires Located(more, ids[k..])
    ensures EntriesAt(parse, more, ids[k..]) == EntriesAt(parse, events, ids)[k..]
  {
    forall i | k <= i < |ids| ensures EntriesAt(parse, more, ids[k..])[i - k] == EntriesAt(parse, events, ids)[i] {
      assert ids[k..][i - k] == ids[i] && ids[i] in ids;
    }
  }

  lemma NewestEntriesAt(parse: Parser, events: seq<Event>, more: seq<Event>, ids: seq<nat>, n: nat)
    requires Located(events, ids) && events <= more
    ensures Located(more, Newest<nat>(ids, n))
    ensures EntriesAt(parse, more, Newest<nat>(ids, n)) == Newest(EntriesAt(parse, events, ids), n)
  {
    var newest := Newest<nat>(ids, n);
    assert forall id :: id in newest ==> id in ids;
    var k := if |ids| <= n then 0 else |ids| - n;
    assert newest == ids[k..];
    LaterEntriesAt(parse, events, more, ids, k);
  }

  lemma RingAfterLine(parse: Parser, events: seq<Event>, capacity: nat, age: int, line: string, now: int)
    requires capacity >= 1
    ensures RingEntries(parse, events + [Line(line, now)], capacity, age)
         == Newest(RingEntries(parse, events, capacity, age), capacity - 1) + [parse(line, now)]
  {
    hide Ring, Newest;
    var more := events + [Line(line, now)];
    var ids := Ring(parse, events, capacity, age);
    RingOfLine(parse, events, capacity, age, line, now);
    assert Located(events, ids);
    NewestEntriesAt(parse, events, more, ids, capacity - 1);
    var rest := Newest<nat>(ids, capacity - 1);
    var all := rest + [|events|];
    assert Located(more, all) by {
      assert forall i :: 0 <= i < |rest| ==> all[i] == rest[i];
    }
    assert EntriesAt(parse, more, all) == EntriesAt(parse, more, rest) + [parse(line, now)];
    assert Ring(parse, more, capacity, age) == all;
  }

  lemma RingAfterPoll(parse: Parser, events: seq<Event>, capacity: nat, age: int, now: int)
    requires capacity >= 1
    ensures RingEntries(parse, events + [Poll(now)], capacity, age)
         == FreshEntries(RingEntries(parse, events, capacity, age), now, age)
  {
    var more := events + [Poll(now)];
    assert more[..|events|] == events;
    var ids := Ring(parse, events, capacity, age);
    assert Located(more, ids);
    assert EntriesAt(parse, more, ids) == EntriesAt(parse, events, ids);
    FreshEntriesAt(parse, more, ids, now, age);
  }

  lemma RingAfterRestart(parse: Parser, events: seq<Event>, capacity: nat, age: int)
    requires capacity >= 1
    ensures RingEntries(parse, events + [Restart], capacity, age) == RingEntries(parse, events, capacity, age)
  {
    assert (events + [Restart])[..|events|] == events;
    assert Located(events + [Restart], Ring(parse, events, capacity, age));
  }

  lemma LinesSinceSnoc(events: seq<Event>, event: Event)
    ensures event.Line? ==> LinesSince(events + [event]) == LinesSince(events) + [event.line]
    ensures event.Poll? ==> LinesSince(events + [event]) == LinesSince(events)
    ensures event.Restart? ==> LinesSince(events + [event]) == []
  {
    assert (events + [event])[..|events|] == events;
  }

  // ---------------------------------------------------------------- the source

  class FileSource {
    const limits: Limits
    const parse: Parser
    var entries: seq<Entry>
    var offset: nat
    var identity: Option<nat>
    var partial: string
    var discard: bool
    /* The bytes consumed since reading last began at the first byte, and the whole history. */
    ghost var consumed: string
    ghost var events: seq<Event>
    /* How often looking at the file, opening it or reading it failed, or a poll was cancelled. */
    ghost var faults: nat

    /* The scanner is where a single pass over the consumed bytes would be. */
    ghost predicate Scanned()
      reads `offset, `partial, `discard, `consumed, `events
    {
      && Accepted(limits)
      && offset == |consumed|
      && discard == Overlong(LineLimit(limits), consumed)
      && partial == Buffer(LineLimit(limits), consumed)
      && LinesSince(events) == Worth(LineLimit(limits), Complete(consumed))
    }

    /* The ring is what the history leaves in it. */
    ghost predicate Held()
      reads `entries, `events
    {
      Accepted(limits) && entries == RingEntries(parse, events, limits.maxEntries, limits.maxAge)
    }

    ghost predicate Valid()
      reads this
    {
      Scanned() && Held()
    }

    constructor (limits: Limits, parse: Parser)
      requires Accepted(limits)
      ensures Valid() && this.limits == limits && this.parse == parse
      ensures entries == [] && consumed == "" && events == [] && identity == None
    {
      this.limits, this.parse := limits, parse;
      entries, offset, identity, partial, discard := [], 0, None, "", false;
      consumed, events, faults := "", [], 0;
    }

    method Append(entry: Entry)
      requires Accepted(limits) && |entries| <= limits.maxEntries
      modifies `entries
      ensures entries == Newest(old(entries), limits.maxEntries - 1) + [entry]
    {
      if |entries| == limits.maxEntries {
        entries := entries[1..];
      }
      entries := entries + [entry];
    }

    method Expire(now: int)
      modifies `entries
      ensures entries == FreshEntries(old(entries), now, limits.maxAge)
    {
      var keep := [];
      for i := 0 to |entries|
        invariant entries == old(entries)
        invariant keep == FreshEntries(entries[..i], now, limits.maxAge)
      {
        assert entries[..i + 1][..i] == entries[..i];
        if now - entries[i].observedAt <= limits.maxAge {
          keep := keep + [entries[i]];
        }
      }
      assert entries[..|entries|] == entries;
      entries := keep;
    }

    /* The newest admitted entries, newest first. */
    method NewestFirst(filter: Filter) returns (out: seq<Entry>)
      requires Accepted(limits)
      ensures Reverse(out) == Newest(Admitted(entries, filter), limits.maxPerRead)
    {
      hide Admits, Admitted, Reverse, Newest;
      out := [];
      var i := |entries|;
      assert entries[..i] == entries;
      NoReverse<Entry>();
      while i > 0 && |out| < limits.maxPerRead
        invariant 0 <= i <= |entries|
        invariant |out| <= limits.maxPerRead
        invariant Admitted(entries, filter) == Admitted(entries[..i], filter) + Reverse(out)
      {
        i := i - 1;
        AdmittedStep(entries, i, filter);
        if Admits(entries[i], filter) {
          ReverseSnoc(out, entries[i]);
          out := out + [entries[i]];
        }
      }
      ReverseLength(out);
      NothingAdmitted(filter);
      NewestTail(Admitted(entries[..i], filter), Reverse(out), limits.maxPerRead);
    }

    /* The newest admitted entries, in the order of emission. */
    method Filtered(filter: Filter) returns (out: seq<Entry>)
      requires Accepted(limits) && ValidFilter(filter)
      ensures out == Newest(Admitted(entries, filter), limits.maxPerRead)
    {
      hide Reverse, Newest, Admitted;
      var reversed := NewestFirst(filter);
      out := [];
      NoReverse<Entry>();
      assert reversed[..0] == [];
      for j := 0 to |reversed|
        invariant out == Reverse(reversed[..j])
      {
        PrefixStep(reversed, j);
        ReverseSnoc(reversed[..j], reversed[j]);
        out := [reversed[j]] + out;
      }
      assert reversed[..|reversed|] == reversed;
    }

    /* One byte of the file. */
    method Feed(b: char)
      requires Valid()
      modifies `offset, `partial, `discard, `entries, `consumed, `events
      ensures Valid()
      ensures consumed == old(consumed) + [b] && old(events) <= events
    {
      hide Split, Worth, LinesSince, RingEntries, Accepted;
      ghost var limit := LineLimit(limits);
      offset := offset + 1;
      consumed := consumed + [b];
      if b == '\n' {
        LineFeed(limit, old(consumed));
        assert consumed == old(consumed) + "\n";
        if discard {
          discard := false;
        } else {
          var line := if partial != "" && partial[|partial| - 1] == '\r' then partial[..|partial| - 1] else partial;
          partial := "";
          if line != "" {
            var now: int := *;
            Emit(line, now);
          }
        }
      } else {
        OtherByte(old(consumed), b);
        if !discard {
          if |partial| >= limits.maxMessage + MAX_LINE_OVERHEAD {
            partial := "";
            discard := true;
          } else {
            partial := partial + [b];
          }
        }
      }
    }

    method Emit(line: string, now: int)
      requires Held()
      modifies `entries, `events
      ensures Held()
      ensures events == old(events) + [Line(line, now)]
      ensures LinesSince(events) == old(LinesSince(events)) + [line]
    {
      RingOrdered(parse, events, limits.maxEntries, limits.maxAge);
      RingAfterLine(parse, events, limits.maxEntries, limits.maxAge, line, now);
      LinesSinceSnoc(events, Line(line, now));
      Append(parse(line, now));
      events := events + [Line(line, now)];
    }

    /* The log was appended to since the last poll, or it is another file, or it was truncated. */
    ghost predicate Grown(found: Found)
      reads `identity, `offset, `consumed
    {
      found.File? && identity == Some(found.id) && offset <= |found.content| ==> consumed <= found.content
    }

    /* A file replaced or truncated is read from its first byte. */
    method Locate(id: nat, size: nat)
      requires Valid()
      modifies `offset, `partial, `discard, `identity, `consumed, `events
      ensures Valid() && identity == Some(id) && old(events) <= events
      ensures old(identity) == Some(id) && old(offset) <= size ==> consumed == old(consumed) && events == old(events)
      ensures !(old(identity) == Some(id) && old(offset) <= size) ==> consumed == "" && events == old(events) + [Restart]
    {
      if identity != Some(id) || size < offset {
        RingAfterRestart(parse, events, limits.maxEntries, limits.maxAge);
        LinesSinceSnoc(events, Restart);
        offset, partial, discard := 0, "", false;
        identity := Some(id);
        consumed, events := "", events + [Restart];
      }
    }

    /* The byte loop of one poll. It may be cancelled, or fail to read, before any byte; what it
       consumed until then stays consumed. */
    method Consume(content: string) returns (complete: bool)
      requires Valid() && offset <= |content|
      modifies `offset, `partial, `discard, `entries, `consumed, `events, `faults
      ensures Valid() && old(events) <= events && faults >= old(faults)
      ensures complete <==> faults == old(faults)
      ensures old(offset) <= offset <= |content|
      ensures consumed == old(consumed) + content[old(offset)..offset]
      ensures offset <= Bound(old(offset), |content|, limits.maxBytes)
      ensures complete ==> offset == Bound(old(offset), |content|, limits.maxBytes)
    {
      hide Accepted, Overlong, Buffer, Worth, LinesSince, RingEntries;
      var read := 0;
      while read < limits.maxBytes
        invariant Valid() && old(events) <= events && faults == old(faults)
        invariant old(offset) <= offset <= |content|
        invariant consumed == old(consumed) + content[old(offset)..offset]
        invariant offset == old(offset) + read && (read == 0 || read <= limits.maxBytes)
      {
        if * {
          faults := faults + 1;
          return false;
        }
        if offset == |content| {
          break;
        }
        var b := content[offset];
        assert content[old(offset)..offset + 1] == content[old(offset)..offset] + [b];
        read := read + 1;
        Feed(b);
      }
      complete := true;
    }

    /* One poll. A poll that ends normally consumes all there is, up to its bound, and returns
       the newest admitted entries of the ring. Only a file whose consumed bytes are still in place
       leaves the consumed bytes a prefix of it. */
    method Read(filter: Filter, found: Found) returns (result: ReadResult)
      requires Valid()
      modifies this
      ensures Valid() && old(events) <= events && faults >= old(faults)
      // Without a fault the answer is what is at the path.
      ensures faults == old(faults) && ValidFilter(filter) ==>
                && (result == Unavailable <==> found.Missing?)
                && (result == Failed <==> found.Refused?)
                && (result.Available? <==> found.File?)
      ensures !ValidFilter(filter) ==> result == Failed
      ensures result == Unavailable ==> found.Missing?
      ensures result.Available? ==> found.File? && faults == old(faults)
      ensures !ValidFilter(filter) || !found.File? ==>
                consumed == old(consumed) && events == old(events) && identity == old(identity)
      ensures (consumed == old(consumed) && events == old(events))
           || (found.File? && identity == Some(found.id)
               && ReadOn(old(consumed), Start(old(identity), old(offset), found), consumed, found.content))
      ensures old(Grown(found)) ==> consumed == old(consumed) || (found.File? && consumed <= found.content)
      ensures result.Available? ==>
                && found.File? && identity == Some(found.id)
                && ReadOn(old(consumed), Start(old(identity), old(offset), found), consumed, found.content)
                && (old(Grown(found)) ==> consumed <= found.content)
                && offset == Bound(Start(old(identity), old(offset), found), |found.content|, limits.maxBytes)
      ensures result.Available? ==> ValidFilter(filter) && result.entries == Newest(Admitted(entries, filter), limits.maxPerRead)
    {
      hide Accepted, Overlong, Buffer, Worth, LinesSince, RingEntries, Admitted, Newest, ReadOn, ValidFilter;
      if !ValidFilter(filter) {
        return Failed;
      }
      if * {
        faults := faults + 1;
        return Failed;
      }
      if found.Missing? {
        return Unavailable;
      }
      if found.Refused? {
        return Failed;
      }
      Locate(found.id, |found.content|);
      ghost var start: nat := offset;
      var complete := Consume(found.content);
      ReadsOn(old(consumed), start, consumed, found.content);
      if !complete {
        return Failed;
      }
      var now: int := *;
      Forget(now);
      var out := Filtered(filter);
      return Available(out);
    }

    /* Polls of a file that is left alone, until all of it is read. Without a fault they get there, and
       have then emitted exactly the lines of the file that count. */
    method Follow(filter: Filter, file: Found) returns (ok: bool)
      requires Valid() && ValidFilter(filter) && file.File? && Grown(file)
      modifies this
      ensures Valid() && faults >= old(faults)
      ensures ok <==> faults == old(faults)
      ensures ok ==> consumed == file.content && identity == Some(file.id) && offset == |file.content|
      ensures ok ==> LinesSince(events) == Worth(LineLimit(limits), Complete(file.content))
    {
      hide Overlong, Buffer, Worth, LinesSince, RingEntries, Admitted, Newest, ReadOn, ValidFilter;
      var result := Read(filter, file);
      while result.Available? && offset < |file.content|
        invariant Valid() && faults >= old(faults)
        invariant result.Available? <==> faults == old(faults)
        invariant result.Available? ==> identity == Some(file.id) && consumed <= file.content && offset <= |file.content|
        decreases result.Available?, |file.content| - offset
      {
        result := Read(filter, file);
      }
      ok := result.Available?;
    }

    /* The poll drops what has grown too old. */
    method Forget(now: int)
      requires Valid()
      modifies `entries, `events
      ensures Valid() && events == old(events) + [Poll(now)]
    {
      RingAfterPoll(parse, events, limits.maxEntries, limits.maxAge, now);
      LinesSinceSnoc(events, Poll(now));
      Expire(now);
      events := events + [Poll(now)];
    }
  }

  /* A source is created exactly for a path that is not blank and accepted limits. */
  method NewFileSource(path: string, limits: Limits, parse: Parser) returns (source: FileSource?)
    ensures source == null <==> TrimSpace(path) == "" || !Accepted(limits)
    ensures source != null ==> fresh(source) && source.Valid() && source.limits == limits && source.consumed == "" && source.entries == []
  {
    if TrimSpace(path) == "" || !Accepted(limits) {
      return null;
    }
    source := new FileSource(limits, parse);
  }

  /* Where a poll begins to read. */
  function Start(identity: Option<nat>, offset: nat, found: Found): nat
    requires found.File?
  {
    if identity == Some(found.id) && offset <= |found.content| then offset else 0
  }

  /* A poll keeps what was consumed up to where it begins and adds the file's bytes from there on. */
  predicate ReadOn(was: string, start: nat, now: string, content: string) {
    start <= |was| && start <= |now| <= |content| && now == was[..start] + content[start..|now|]
  }

  lemma ReadsOn(was: string, start: nat, now: string, content: string)
    requires start <= |was| && start <= |now| <= |content| && now == was[..start] + content[start..|now|]
    ensures ReadOn(was, start, now, content)
    ensures was[..start] <= content ==> now <= content
  {
    assert content[..start] + content[start..|now|] == content[..|now|];
  }

  /* Where a poll stops that is neither cancelled nor fails. */
  function Bound(start: int, size: int, maxBytes: int): int {
    if maxBytes <= 0 || size <= start then start
    else if size <= start + maxBytes then size
    else start + maxBytes
  }

  /* Two sources that consumed the same bytes hold the same unfinished line and emitted the same
     lines, however the polls of each were cut. */
  lemma PollsDoNotMatter(a: FileSource, b: FileSource)
    requires a.Scanned() && b.Scanned() && a.limits == b.limits && a.consumed == b.consumed
    ensures a.offset == b.offset && a.partial == b.partial && a.discard == b.discard
    ensures LinesSince(a.events) == LinesSince(b.events)
  {
  }

  function Reverse<T>(s: seq<T>): seq<T> {
    if s == [] then [] else [s[|s| - 1]] + Reverse(s[..|s| - 1])
  }

  lemma NoReverse<T>()
    ensures Reverse<T>([]) == []
  {
  }

  lemma ReverseLength<T>(s: seq<T>)
    ensures |Reverse(s)| == |s|
  {
  }

  lemma AdmittedStep(entries: seq<Entry>, i: nat, filter: Filter)
    requires i < |entries|
    ensures Admitted(entries[..i + 1], filter)
         == Admitted(entries[..i], filter) + if Admits(entries[i], filter) then [entries[i]] else []
  {
    hide Admits;
    assert entries[..i + 1][..i] == entries[..i];
  }

  lemma NothingAdmitted(filter: Filter)
    ensures Admitted([], filter) == []
  {
  }

  lemma ReverseSnoc<T>(s: seq<T>, x: T)
    ensures Reverse(s + [x]) == [x] + Reverse(s)
  {
    assert (s + [x])[..|s|] == s;
  }

  /* A tail that is full, or that nothing precedes, is the newest part. */
  lemma NewestTail<T>(a: seq<T>, b: seq<T>, n: nat)
    requires |b| == n || (a == [] && |b| <= n)
    ensures Newest(a + b, n) == b
  {
    if a == [] {
      assert a + b == b;
    }
  }
}
