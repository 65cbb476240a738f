/**
 The broker log tailer (internal/brokerlog/source.go): an incremental scanner over the bytes of
 a growing file, and the bounded ring of the entries it emits. Files, clocks and the
 classification of a line are parameters.
 */
module BrokerLog {
  import opened Strings
  import opened Options

  const MAX_LINE_OVERHEAD := 4096

  // ---------------------------------------------------------------- the whole-file specification

  function DropCR(line: string): string {
    if line != "" && line[|line| - 1] == '\r' then line[..|line| - 1] else line
  }

  /* The lines a file of complete lines is worth: none that is empty, none that is too long. */
  function Worth(limit: nat, lines: seq<string>): seq<string> {
    if lines == [] then []
    else
      var n := |lines| - 1;
      Worth(limit, lines[..n]) + if IsWorth(limit, lines[n]) then [DropCR(lines[n])] else []
  }

  predicate IsWorth(limit: nat, line: string) {
    |line| <= limit && DropCR(line) != ""
  }

  lemma {:induction false} WorthMembers(limit: nat, lines: seq<string>)
    ensures forall line :: line in lines && IsWorth(limit, line) ==> DropCR(line) in Worth(limit, lines)
    ensures forall w :: w in Worth(limit, lines) ==> exists line :: line in lines && IsWorth(limit, line) && DropCR(line) == w
  {
    hide DropCR;
    if lines != [] {
      var n := |lines| - 1;
      WorthMembers(limit, lines[..n]);
      assert lines == lines[..n] + [lines[n]];
      assert lines[n] in lines;
    }
  }

  /* What precedes the last line feed, as lines, and what follows it. */
  function Complete(bytes: string): seq<string> {
    var lines := Split(bytes, '\n');
    lines[..|lines| - 1]
  }

  function Unfinished(bytes: string): string {
    var lines := Split(bytes, '\n');
    lines[|lines| - 1]
  }

  /* The line buffer a scanner must hold: the unfinished line, or nothing once it is too long. */
  function Buffer(limit: nat, bytes: string): string {
    if |Unfinished(bytes)| <= limit then Unfinished(bytes) else ""
  }

  predicate Overlong(limit: nat, bytes: string) {
    |Unfinished(bytes)| > limit
  }

  /* A character appended to the last part. */
  function Grow(parts: seq<string>, c: char): seq<string>
    requires |parts| >= 1
  {
    parts[..|parts| - 1] + [parts[|parts| - 1] + [c]]
  }

  lemma GrowBehind(first: string, rest: seq<string>, c: char)
    requires |rest| >= 1
    ensures Grow([first] + rest, c) == [first] + Grow(rest, c)
  {
  }

  lemma GrowHead(a: char, rest: seq<string>, c: char)
    requires |rest| >= 1
    ensures Grow([[a] + rest[0]] + rest[1..], c) == [[a] + Grow(rest, c)[0]] + Grow(rest, c)[1..]
  {
    if |rest| == 1 {
      assert [a] + (rest[0] + [c]) == ([a] + rest[0]) + [c];
    }
  }

  lemma {:induction false} SplitSnoc(s: string, c: char, sep: char)
    ensures Split(s + [c], sep) == if c == sep then Split(s, sep) + [""] else Grow(Split(s, sep), c)
  {
    hide Grow;
    if s == "" {
      assert [c][1..] == "" && s + [c] == [c];
      if c == sep {
        assert "" + [sep] + "" == [c];
        SplitConcat("", "", sep);
      } else {
        SplitWhole([c], sep);
      }
      GrowEmpty(c);
    } else {
      assert (s + [c])[1..] == s[1..] + [c];
      SplitSnoc(s[1..], c, sep);
      GrowBehind("", Split(s[1..], sep), c);
      GrowHead(s[0], Split(s[1..], sep), c);
    }
  }

  lemma GrowEmpty(c: char)
    ensures Grow([""], c) == [[c]]
  {
    assert "" + [c] == [c];
  }

  lemma LineFeed(limit: nat, bytes: string)
    ensures Complete(bytes + "\n") == Complete(bytes) + [Unfinished(bytes)] && Unfinished(bytes + "\n") == ""
    ensures Worth(limit, Complete(bytes + "\n"))
         == Worth(limit, Complete(bytes))
            + if !Overlong(limit, bytes) && DropCR(Unfinished(bytes)) != "" then [DropCR(Unfinished(bytes))] else []
  {
    hide Split;
    SplitSnoc(bytes, '\n', '\n');
    var before := Complete(bytes);
    assert (before + [Unfinished(bytes)])[..|before|] == before;
  }

  lemma OtherByte(bytes: string, b: char)
    requires b != '\n'
    ensures Complete(bytes + [b]) == Complete(bytes) && Unfinished(bytes + [b]) == Unfinished(bytes) + [b]
  {
    hide Split;
    SplitSnoc(bytes, b, '\n');
  }

  // ---------------------------------------------------------------- entries

  datatype Severity = Debug | Info | Warning | Error | Unknown {
    function Rank(): int {
      match this
      case Debug => 0
      case Info => 1
      case Warning => 2
      case Error => 3
      case Unknown => -1
    }
  }

  datatype Entry = Entry(observedAt: int, severity: Severity, kind: string, message: string, client: string, topic: string)

  datatype Filter = Filter(minimum: Option<Severity>, includes: seq<string>, excludes: seq<string>)

  predicate Matches(entry: Entry, filter: Filter) {
    var text := entry.kind + " " + entry.message + " " + entry.client + " " + entry.topic;
    && (filter.includes == [] || exists pattern :: pattern in filter.includes && Contains(text, pattern))
    && forall pattern :: pattern in filter.excludes ==> !Contains(text, pattern)
  }

  function Minimum(filter: Filter): Severity {
    if filter.minimum.None? then Info else filter.minimum.value
  }

  predicate Admits(entry: Entry, filter: Filter) {
    entry.severity.Rank() >= Minimum(filter).Rank() && Matches(entry, filter)
  }

  /* The admitted entries, in order. */
  function Admitted(entries: seq<Entry>, filter: Filter): (admitted: seq<Entry>)
    ensures forall e :: e in admitted <==> e in entries && Admits(e, filter)
  {
    if entries == [] then []
    else
      var n := |entries| - 1;
      var rest := Admitted(entries[..n], filter);
      if Admits(entries[n], filter) then rest + [entries[n]] else rest
  }

  function Newest<T>(s: seq<T>, n: nat): seq<T> {
    if |s| <= n then s else s[|s| - n..]
  }

  // ---------------------------------------------------------------- the ring, over a history

  /* What happened to a source: a line was emitted, a poll dropped the old entries, or the file
     was replaced and reading began again at its first byte. */
  datatype Event = Line(line: string, now: int) | Poll(now: int) | Restart

  type Parser = (string, int) -> Entry

  function EntryAt(parse: Parser, events: seq<Event>, id: nat): Entry
    requires id < |events| && events[id].Line?
  {
    parse(events[id].line, events[id].now)
  }

  predicate Fresh(entry: Entry, now: int, age: int) {
    now - entry.observedAt <= age
  }

  function FreshIds(parse: Parser, events: seq<Event>, ids: seq<nat>, now: int, age: int): (kept: seq<nat>)
    requires forall id :: id in ids ==> id < |events| && events[id].Line?
    ensures forall id :: id in kept <==> id in ids && Fresh(EntryAt(parse, events, id), now, age)
  {
    if ids == [] then []
    else
      var n := |ids| - 1;
      assert ids[n] in ids && forall id :: id in ids[..n] ==> id in ids;
      var rest := FreshIds(parse, events, ids[..n], now, age);
      if Fresh(EntryAt(parse, events, ids[n]), now, age) then rest + [ids[n]] else rest
  }

  /* The emissions the ring holds, oldest first, as positions in the history. */
  function Ring(parse: Parser, events: seq<Event>, capacity: nat, age: int): (ids: seq<nat>)
    requires capacity >= 1
    ensures forall id :: id in ids ==> id < |events| && events[id].Line?
  {
    if events == [] then []
    else
      var n := |events| - 1;
      var before := Ring(parse, events[..n], capacity, age);
      match events[n]
      case Line(_, _) =>
        var rest := if |before| == capacity then before[1..] else before;
        assert forall id :: id in rest ==> id in before;
        rest + [n]
      case Poll(now) => FreshIds(parse, events, before, now, age)
      case Restart => before
  }

  predicate Increasing(ids: seq<nat>) {
    forall i, j :: 0 <= i < j < |ids| ==> ids[i] < ids[j]
  }

  lemma {:induction false} FreshIncreasing(parse: Parser, events: seq<Event>, ids: seq<nat>, now: int, age: int)
    requires forall id :: id in ids ==> id < |events| && events[id].Line?
    requires Increasing(ids)
    ensures Increasing(FreshIds(parse, events, ids, now, age))
    ensures |FreshIds(parse, events, ids, now, age)| <= |ids|
  {
    hide Fresh, EntryAt, Increasing;
    if ids == [] {
      IncreasingSnoc([], 0);
    } else {
      var n := |ids| - 1;
      assert ids == ids[..n] + [ids[n]];
      assert forall id :: id in ids[..n] ==> id in ids;
      IncreasingSnoc(ids[..n], ids[n]);
      FreshIncreasing(parse, events, ids[..n], now, age);
      IncreasingSnoc(FreshIds(parse, events, ids[..n], now, age), ids[n]);
    }
  }

  lemma IncreasingSnoc(ids: seq<nat>, id: nat)
    ensures Increasing(ids + [id]) <==> Increasing(ids) && forall x :: x in ids ==> x < id
    ensures Increasing([])
  {
    var more := ids + [id];
    assert forall i :: 0 <= i < |ids| ==> more[i] == ids[i] && ids[i] in ids;
    if Increasing(more) {
      forall i, j | 0 <= i < j < |ids| ensures ids[i] < ids[j] { assert more[i] < more[j]; }
      forall x | x in ids ensures x < id {
        var i :| 0 <= i < |ids| && ids[i] == x;
        assert more[i] < more[|ids|];
      }
    }
  }

  /* The ring keeps the order of emission and its bound. */
  lemma {:induction false} RingOrdered(parse: Parser, events: seq<Event>, capacity: nat, age: int)
    requires capacity >= 1
    ensures Increasing(Ring(parse, events, capacity, age))
    ensures |Ring(parse, events, capacity, age)| <= capacity
  {
    hide FreshIds;
    if events != [] {
      var n := |events| - 1;
      RingOrdered(parse, events[..n], capacity, age);
      var before := Ring(parse, events[..n], capacity, age);
      if events[n].Poll? {
        FreshIncreasing(parse, events, before, events[n].now, age);
      } else if events[n].Line? {
        forall i | 0 <= i < |before| ensures before[i] < n { assert before[i] in before; }
      }
    }
  }

  /* No poll after the emission found the entry too old. */
  predicate Survives(parse: Parser, events: seq<Event>, id: nat, age: int) {
    && id < |events| && events[id].Line?
    && forall j :: id < j < |events| && events[j].Poll? ==> Fresh(EntryAt(parse, events, id), events[j].now, age)
  }

  /* The lines emitted after a position. */
  function Later(events: seq<Event>, id: nat): set<nat> {
    set j: nat | id < j < |events| && events[j].Line?
  }

  function IdSet(ids: seq<nat>): set<nat> {
    set id | id in ids
  }

  lemma {:induction false} IncreasingSize(ids: seq<nat>)
    requires Increasing(ids)
    ensures |IdSet(ids)| == |ids|
  {
    if ids != [] {
      var n := |ids| - 1;
      IncreasingSize(ids[..n]);
      assert ids == ids[..n] + [ids[n]];
      assert IdSet(ids) == IdSet(ids[..n]) + {ids[n]};
    }
  }

  lemma SubsetSize<T>(a: set<T>, b: set<T>)
    requires a <= b
    ensures |a| <= |b|
  {
    assert b == a + (b - a);
  }

  /* What the ring holds was dropped by no poll. */
  lemma {:induction false} RingSurvives(parse: Parser, events: seq<Event>, capacity: nat, age: int, id: nat)
    requires capacity >= 1 && id in Ring(parse, events, capacity, age)
    ensures Survives(parse, events, id, age)
  {
    hide Fresh;
    var n := |events| - 1;
    if id < n {
      RingSurvives(parse, events[..n], capacity, age, id);
    }
  }

  /* The ring holds every entry that no poll dropped and that fewer lines than its capacity
     followed. */
  lemma {:induction false} RingKeeps(parse: Parser, events: seq<Event>, capacity: nat, age: int, id: nat)
    requires capacity >= 1 && Survives(parse, events, id, age) && |Later(events, id)| < capacity
    ensures id in Ring(parse, events, capacity, age)
  {
    hide Fresh;
    var n := |events| - 1;
    if id < n {
      var before := Ring(parse, events[..n], capacity, age);
      assert Later(events[..n], id) <= Later(events, id);
      SubsetSize(Later(events[..n], id), Later(events, id));
      RingKeeps(parse, events[..n], capacity, age, id);
      if events[n].Line? {
        assert Later(events, id) == Later(events[..n], id) + {n};
        if |before| == capacity {
          OldestFollowed(parse, events[..n], capacity, age);
        }
      }
    }
  }

  /* A full ring holds as many lines after its oldest one as it has other places. */
  lemma OldestFollowed(parse: Parser, events: seq<Event>, capacity: nat, age: int)
    requires capacity >= 1 && |Ring(parse, events, capacity, age)| == capacity
    ensures |Later(events, Ring(parse, events, capacity, age)[0])| >= capacity - 1
  {
    hide Ring;
    var ids := Ring(parse, events, capacity, age);
    RingOrdered(parse, events, capacity, age);
    var others := ids[1..];
    IncreasingSize(others);
    forall id | id in IdSet(others) ensures id in Later(events, ids[0]) {
      var i :| 0 <= i < |others| && others[i] == id;
      assert ids[i + 1] == id && ids[i + 1] in ids && ids[0] < ids[i + 1];
    }
    SubsetSize(IdSet(others), Later(events, ids[0]));
  }

  /* Lines come in the order of the times they are stamped with. */
  predicate Chronological(parse: Parser, events: seq<Event>) {
    forall i, j :: 0 <= i < j < |events| && events[i].Line? && events[j].Line? ==>
      EntryAt(parse, events, i).observedAt <= EntryAt(parse, events, j).observedAt
  }

  lemma {:induction false} NewerKept(parse: Parser, events: seq<Event>, capacity: nat, age: int, id: nat, newer: nat)
    requires capacity >= 1 && Chronological(parse, events)
    requires id in Ring(parse, events, capacity, age)
    requires id < newer < |events| && events[newer].Line?
    ensures newer in Ring(parse, events, capacity, age)
  {
    var n := |events| - 1;
    if newer < n {
      var before := Ring(parse, events[..n], capacity, age);
      NewerKept(parse, events[..n], capacity, age, id, newer);
      RingOrdered(parse, events[..n], capacity, age);
      var i :| 0 <= i < |before| && before[i] == id;
      assert before[0] <= id;
      if events[n].Poll? {
        assert EntryAt(parse, events, id).observedAt <= EntryAt(parse, events, newer).observedAt;
      }
    }
  }

  /* With lines in chronological order the ring is exactly the newest lines that no poll dropped. */
  lemma RingExactly(parse: Parser, events: seq<Event>, capacity: nat, age: int, id: nat)
    requires capacity >= 1 && Chronological(parse, events)
    ensures id in Ring(parse, events, capacity, age)
       <==> Survives(parse, events, id, age) && |Later(events, id)| < capacity
  {
    hide Chronological, Ring, Survives;
    var ids := Ring(parse, events, capacity, age);
    if id in ids {
      RingSurvives(parse, events, capacity, age, id);
      forall newer | newer in Later(events, id) ensures newer in IdSet(ids) - {id} {
        NewerKept(parse, events, capacity, age, id, newer);
      }
      RingOrdered(parse, events, capacity, age);
      IncreasingSize(ids);
      SubsetSize(Later(events, id), IdSet(ids) - {id});
    } else if Survives(parse, events, id, age) && |Later(events, id)| < capacity {
      RingKeeps(parse, events, capacity, age, id);
    }
  }
}
