/** The buffered event tables of `aggregator/storage.py`. */
module SqliteStorage {
  import opened Wrappers

  datatype Stamp = Number(seconds: real) | Text(s: string)

  /** An event; absent entries take the defaults of the insert. */
  datatype Event = Event(
    timestamp: Stamp, eventType: Option<string>, sourceIp: Option<string>, sourcePort: Option<int>,
    sourceCountry: Option<string>, sourceCity: Option<string>, destinationPort: Option<int>, protocol: Option<string>,
    honeypotType: Option<string>, sessionId: Option<string>, threatLevel: Option<string>, data: string
  )

  datatype EventRow = EventRow(
    timestamp: string, eventType: string, sourceIp: string, sourcePort: int, sourceCountry: string, sourceCity: string,
    destinationPort: int, protocol: string, honeypotType: string, sessionId: string, threatLevel: string, data: string
  )

  datatype SessionRow = SessionRow(
    startTime: string, sourceIp: string, sourcePort: int, protocol: string, honeypotType: string, threatLevel: string
  )

  function Default<T>(o: Option<T>, default: T): T { if o.Some? then o.value else default }

  /** `strftime` renders numeric timestamps. */
  type Render = real -> string

  function RowOf(render: Render, e: Event): EventRow {
    EventRow(
      if e.timestamp.Number? then render(e.timestamp.seconds) else e.timestamp.s,
      Default(e.eventType, "unknown"), Default(e.sourceIp, ""), Default(e.sourcePort, 0), Default(e.sourceCountry, ""),
      Default(e.sourceCity, ""), Default(e.destinationPort, 0), Default(e.protocol, ""), Default(e.honeypotType, ""),
      Default(e.sessionId, ""), Default(e.threatLevel, ""), e.data)
  }

  /** The event with exactly these entries. */
  function EventOf(row: EventRow): Event {
    Event(
      Text(row.timestamp), Some(row.eventType), Some(row.sourceIp), Some(row.sourcePort), Some(row.sourceCountry),
      Some(row.sourceCity), Some(row.destinationPort), Some(row.protocol), Some(row.honeypotType),
      Some(row.sessionId), Some(row.threatLevel), row.data)
  }

  /** What an event says is stored as it says it, and what it leaves out is stored as the default. */
  lemma StoredAsSaid(render: Render, row: EventRow, seconds: real)
    ensures RowOf(render, EventOf(row)) == row
    ensures RowOf(render, EventOf(row).(timestamp := Number(seconds))) == row.(timestamp := render(seconds))
    ensures RowOf(render, Event(Number(seconds), None, None, None, None, None, None, None, None, None, None, row.data))
         == EventRow(render(seconds), "unknown", "", 0, "", "", 0, "", "", "", "", row.data)
  {}

  function SessionOf(row: EventRow): SessionRow {
    SessionRow(row.timestamp, row.sourceIp, row.sourcePort, row.protocol, row.honeypotType, row.threatLevel)
  }

  function Rows(render: Render, events: seq<Event>): seq<EventRow> {
    seq(|events|, i requires 0 <= i < |events| => RowOf(render, events[i]))
  }

  /** The sessions table after inserting these rows in turn. */
  function Sessions(rows: seq<EventRow>): map<string, SessionRow> {
    if rows == [] then map[]
    else
      var last, before := rows[|rows| - 1], Sessions(rows[..|rows| - 1]);
      if last.eventType == "connection" then before[last.sessionId := SessionOf(last)] else before
  }

  /** Row `i` is the last connection row of session `id`. */
  ghost predicate LastConnection(rows: seq<EventRow>, id: string, i: int) {
    && 0 <= i < |rows| && rows[i].eventType == "connection" && rows[i].sessionId == id
    && forall j :: i < j < |rows| && rows[j].eventType == "connection" ==> rows[j].sessionId != id
  }

  /** A session row tells when and how this connection began. */
  ghost predicate SessionStarts(session: SessionRow, row: EventRow) {
    && session.startTime == row.timestamp && session.sourceIp == row.sourceIp && session.sourcePort == row.sourcePort
    && session.protocol == row.protocol && session.honeypotType == row.honeypotType
    && session.threatLevel == row.threatLevel
  }

  /** The sessions table maps each session to its last connection row, and no other id to anything. */
  lemma {:induction false} SessionsAreLastConnections(rows: seq<EventRow>, id: string)
    ensures id in Sessions(rows) <==> exists i :: LastConnection(rows, id, i)
    ensures forall i :: LastConnection(rows, id, i) ==>
      id in Sessions(rows) && SessionStarts(Sessions(rows)[id], rows[i])
  {
    if rows != [] {
      var n, before := |rows| - 1, rows[..|rows| - 1];
      SessionsAreLastConnections(before, id);
      if rows[n].eventType == "connection" && rows[n].sessionId == id {
        assert LastConnection(rows, id, n);
      } else {
        assert forall i :: LastConnection(rows, id, i) <==> LastConnection(before, id, i);
      }
    }
  }

  lemma SessionsAppend(rows: seq<EventRow>, row: EventRow)
    ensures Sessions(rows + [row]) == if row.eventType == "connection"
      then Sessions(rows)[row.sessionId := SessionOf(row)] else Sessions(rows)
  {
    hide SessionOf;
    assert (rows + [row])[..|rows|] == rows;
  }

  lemma RowsAppend(render: Render, events: seq<Event>, e: Event)
    ensures Rows(render, events + [e]) == Rows(render, events) + [RowOf(render, e)]
  {
    hide RowOf;
  }

  class SqliteStorage {
    const flushInterval: int
    const render: Render
    var buffer: seq<Event>
    var lastFlush: real
    var events: seq<EventRow>
    var sessions: map<string, SessionRow>

    ghost var written: seq<Event>

    /** The committed rows and the buffer are the write history, and the two tables agree. */
    ghost predicate Valid()
      reads this
    {
      && |buffer| <= |written|
      && buffer == written[|written| - |buffer|..]
      && events == Rows(render, written[..|written| - |buffer|])
      && sessions == Sessions(events)
    }

    constructor (flushInterval: int, render: Render, now: real)
      ensures Valid() && written == [] && this.flushInterval == flushInterval && this.render == render
    {
      this.flushInterval, this.render := flushInterval, render;
      buffer, lastFlush, events, sessions, written := [], now, [], map[], [];
    }

    method Write(e: Event, now: real, stamp: real)
      requires Valid()
      modifies this
      ensures Valid() && written == old(written) + [e]
      ensures var due := now - old(lastFlush) >= flushInterval as real;
        && buffer == (if due then [] else old(buffer) + [e])
        && lastFlush == (if due then stamp else old(lastFlush))
        && (if due then events == Rows(render, written) else events == old(events) && sessions == old(sessions))
    {
      hide Rows, Sessions;
      var due := now - lastFlush >= flushInterval as real;
      buffer, written := buffer + [e], written + [e];
      assert written[..|written| - |buffer|] == old(written[..|written| - |buffer|]);
      if due {
        DoFlush(stamp);
        assert written[..|written| - |buffer|] == written;
      }
    }

    method Flush(stamp: real)
      requires Valid()
      modifies this
      ensures Valid() && written == old(written) && buffer == []
      ensures lastFlush == if old(buffer) == [] then old(lastFlush) else stamp
    {
      DoFlush(stamp);
    }

    /** Inserts the buffered events in turn and commits. */
    method DoFlush(stamp: real)
      requires Valid()
      modifies this`buffer, this`lastFlush, this`events, this`sessions
      ensures Valid() && buffer == [] && lastFlush == if old(buffer) == [] then old(lastFlush) else stamp
    {
      hide *;
      Unfold();
      if buffer == [] {
        return;
      }
      ghost var n := |written| - |buffer|;
      var i := 0;
      while i < |buffer|
        invariant 0 <= i <= |buffer|
        invariant events == Rows(render, written[..n + i]) && sessions == Sessions(events)
        modifies this`events, this`sessions
      {
        assert written[..n + i + 1] == written[..n + i] + [buffer[i]];
        RowsAppend(render, written[..n + i], buffer[i]);
        var row := RowOf(render, buffer[i]);
        SessionsAppend(events, row);
        events := events + [row];
        if row.eventType == "connection" {
          sessions := sessions[row.sessionId := SessionOf(row)];
        }
        i := i + 1;
      }
      assert written[..n + |buffer|] == written;
      buffer := [];
      lastFlush := stamp;
      assert written[|written| - |buffer|..] == [] && written[..|written| - |buffer|] == written;
      Unfold();
    }

    /** The invariant, spelled out for proofs that hide everything. */
    lemma Unfold()
      ensures Valid() <==>
        && |buffer| <= |written|
        && buffer == written[|written| - |buffer|..]
        && events == Rows(render, written[..|written| - |buffer|])
        && sessions == Sessions(events)
    {}
  }
}
