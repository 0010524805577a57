/** The row batcher of a live hunt (run, flushChunk and shipFinalError in
    agent/internal/huntdispatch/dispatcher.go), over the order in which its
    select loop sees events. */
module HuntDispatch {
  import opened Wrappers
  import Decimal

  const CHUNK_ROWS: nat := 256
  const DEFAULT_MAX_ROWS: nat := 10000

  datatype Row = Row(columns: seq<string>, values: seq<string>)

  datatype Event = RowEvent(row: Row) | Complete(err: string) | Closed | Timeout | OtherPayload

  datatype Message = Chunk(controlId: string, rows: seq<Row>) | Final(controlId: string, rowCount: nat, err: string)

  datatype Query = Query(controlId: string, maxRows: nat)

  predicate IsTerminal(e: Event) { e.Complete? || e.Closed? || e.Timeout? }

  /** Index of the first event that ends the hunt. */
  function EndOf(events: seq<Event>): (i: nat)
    ensures i <= |events| && (forall k :: 0 <= k < i ==> !IsTerminal(events[k]))
    ensures i < |events| ==> IsTerminal(events[i])
  {
    if events == [] || IsTerminal(events[0]) then 0 else 1 + EndOf(events[1..])
  }

  /** The rows among some events, in order. */
  function RowsOf(events: seq<Event>): seq<Row> {
    if events == [] then []
    else
      var e := events[|events| - 1];
      RowsOf(events[..|events| - 1]) + if e.RowEvent? then [e.row] else []
  }

  function CapMessage(cap: nat): string { "row cap exceeded; truncated at " + Decimal.Print(cap) }

  lemma RowsOfOne(e: Event)
    ensures RowsOf([e]) == if e.RowEvent? then [e.row] else []
  {
    assert [e][..0] == [];
  }

  /** Rows are kept in the order they came, and nothing else is a row. */
  lemma {:induction false} RowsOfJoin(a: seq<Event>, b: seq<Event>)
    ensures RowsOf(a + b) == RowsOf(a) + RowsOf(b)
  {
    if b == [] {
      assert a + b == a;
    } else {
      RowsOfJoin(a, b[..|b| - 1]);
      assert (a + b)[..|a + b| - 1] == a + b[..|b| - 1];
    }
  }

  /** The rows of all messages, in order. */
  function RowsSent(sent: seq<Message>): seq<Row> {
    if sent == [] then []
    else
      var m := sent[|sent| - 1];
      RowsSent(sent[..|sent| - 1]) + if m.Chunk? then m.rows else []
  }

  function FirstRows(rows: seq<Row>, n: nat): seq<Row> { if |rows| <= n then rows else rows[..n] }

  /** Only full chunks of this hunt. */
  predicate FullChunks(q: Query, sent: seq<Message>) {
    forall i :: 0 <= i < |sent| ==>
      sent[i].Chunk? && sent[i].controlId == q.controlId && |sent[i].rows| == CHUNK_ROWS
  }

  /** Chunks of this hunt, full but perhaps the last and none of them empty,
      then one final message. */
  predicate WellShaped(q: Query, sent: seq<Message>) {
    && sent != [] && sent[|sent| - 1].Final? && sent[|sent| - 1].controlId == q.controlId
    && (forall i :: 0 <= i < |sent| - 1 ==>
          sent[i].Chunk? && sent[i].controlId == q.controlId && 0 < |sent[i].rows| <= CHUNK_ROWS)
    && (forall i :: 0 <= i < |sent| - 2 ==> |sent[i].rows| == CHUNK_ROWS)
  }

  lemma RowsSentPush(sent: seq<Message>, m: Message)
    ensures RowsSent(sent + [m]) == RowsSent(sent) + if m.Chunk? then m.rows else []
  {
    assert (sent + [m])[..|sent|] == sent;
  }

  lemma RowsOfNext(events: seq<Event>, i: nat)
    requires i < |events|
    ensures events[i].RowEvent? ==> RowsOf(events[..i + 1]) == RowsOf(events[..i]) + [events[i].row]
    ensures !events[i].RowEvent? ==> RowsOf(events[..i + 1]) == RowsOf(events[..i])
  {
    assert events[..i + 1][..i] == events[..i];
  }

  /** One more row: counted and buffered below the cap, dropped at it. */
  lemma NextRow(gone: seq<Row>, buf: seq<Row>, rows: seq<Row>, n: nat, r: Row)
    requires gone + buf == FirstRows(rows, n)
    ensures |gone| + |buf| >= n <==> |rows| >= n
    ensures |rows| >= n ==> gone + buf == FirstRows(rows + [r], n)
    ensures |rows| < n ==> gone + (buf + [r]) == FirstRows(rows + [r], n)
  {
  }

  lemma OneMoreFull(q: Query, sent: seq<Message>, m: Message)
    requires FullChunks(q, sent) && m.Chunk? && m.controlId == q.controlId && |m.rows| == CHUNK_ROWS
    ensures FullChunks(q, sent + [m])
  {
  }

  lemma Finished(q: Query, sent: seq<Message>, buf: seq<Row>, final: Message)
    requires FullChunks(q, sent) && |buf| < CHUNK_ROWS && final.Final? && final.controlId == q.controlId
    ensures WellShaped(q, sent + (if buf == [] then [] else [Chunk(q.controlId, buf)]) + [final])
  {
    var all := sent + (if buf == [] then [] else [Chunk(q.controlId, buf)]) + [final];
    assert forall i :: 0 <= i < |sent| ==> all[i] == sent[i];
  }

  class Dispatcher {
    var sent: seq<Message>

    constructor ()
      ensures sent == []
    {
      sent := [];
    }

    method FlushChunk(id: string, rows: seq<Row>)
      modifies this
      ensures sent == old(sent) + if rows == [] then [] else [Chunk(id, rows)]
      ensures RowsSent(sent) == RowsSent(old(sent)) + rows
    {
      if |rows| == 0 {
        return;
      }
      RowsSentPush(sent, Chunk(id, rows));
      sent := sent + [Chunk(id, rows)];
    }

    method ShipFinalError(id: string, rowCount: nat, err: string)
      modifies this
      ensures sent == old(sent) + [Final(id, rowCount, err)] && RowsSent(sent) == RowsSent(old(sent))
    {
      RowsSentPush(sent, Final(id, rowCount, err));
      sent := sent + [Final(id, rowCount, err)];
    }

    /** Runs one hunt whose provider answered `dispatchError`, or else produced
        `events`. Whatever happens exactly one final message is sent, last; the
        chunks before it are the first rows received, up to the cap, and the
        final message counts them. */
    method Run(q: Query, dispatchError: Option<string>, events: seq<Event>)
      requires sent == [] && EndOf(events) < |events|
      modifies this
      ensures WellShaped(q, sent)
      ensures dispatchError.Some? ==> sent == [Final(q.controlId, 0, dispatchError.value)]
      ensures dispatchError.None? ==> sent[|sent| - 1].rowCount == |RowsSent(sent)|
      ensures dispatchError.None? ==>
                var rows, cap := RowsOf(events[..EndOf(events)]), if q.maxRows == 0 then 10000 else q.maxRows;
                RowsSent(sent) <= rows && |RowsSent(sent)| == if |rows| < cap then |rows| else cap
      ensures dispatchError.None? && events[EndOf(events)].Timeout? ==> sent[|sent| - 1].err == "timeout"
      ensures dispatchError.None? && events[EndOf(events)].Closed? ==> sent[|sent| - 1].err == "extension teardown"
      ensures dispatchError.None? && events[EndOf(events)].Complete? ==>
                var said, rows := events[EndOf(events)].err, RowsOf(events[..EndOf(events)]);
                var cap := if q.maxRows == 0 then 10000 else q.maxRows;
                sent[|sent| - 1].err ==
                  if said == "" && |rows| > cap then "row cap exceeded; truncated at " + Decimal.Print(cap) else said
    {
      var maxRows := q.maxRows;
      if maxRows == 0 {
        maxRows := DEFAULT_MAX_ROWS;
      }
      if dispatchError.Some? {
        ShipFinalError(q.controlId, 0, dispatchError.value);
        return;
      }
      Pump(q, maxRows, events);
    }

    /** The select loop. */
    method Pump(q: Query, maxRows: nat, events: seq<Event>)
      requires sent == [] && EndOf(events) < |events|
      modifies this
      ensures WellShaped(q, sent)
      ensures RowsSent(sent) == FirstRows(RowsOf(events[..EndOf(events)]), maxRows)
      ensures sent[|sent| - 1].rowCount == |RowsSent(sent)|
      ensures events[EndOf(events)].Timeout? ==> sent[|sent| - 1].err == "timeout"
      ensures events[EndOf(events)].Closed? ==> sent[|sent| - 1].err == "extension teardown"
      ensures events[EndOf(events)].Complete? ==>
                var said, rows := events[EndOf(events)].err, RowsOf(events[..EndOf(events)]);
                sent[|sent| - 1].err == if said == "" && |rows| > maxRows then CapMessage(maxRows) else said
    {
      hide RowsSent, RowsOf, EndOf, FirstRows, FullChunks;
      Start();
      var buf: seq<Row>, count: nat, capped, i := [], 0, false, 0;
      assert events[..0] == [];
      while true
        invariant 0 <= i <= EndOf(events) && |buf| < CHUNK_ROWS && FullChunks(q, sent)
        invariant RowsSent(sent) + buf == FirstRows(RowsOf(events[..i]), maxRows)
        invariant count == |RowsSent(sent)| + |buf| && capped == (|RowsOf(events[..i])| > maxRows)
        decreases |events| - i
      {
        var e := events[i];
        match e {
          case Timeout =>
            Finish(q, buf, count, "timeout");
            return;
          case Closed =>
            Finish(q, buf, count, "extension teardown");
            return;
          case Complete(said) =>
            var err := said;
            if capped && err == "" {
              err := CapMessage(maxRows);
            }
            Finish(q, buf, count, err);
            return;
          case _ =>
        }
        RowsOfNext(events, i);
        i := i + 1;
        if e.RowEvent? {
          NextRow(RowsSent(sent), buf, RowsOf(events[..i - 1]), maxRows, e.row);
          if count >= maxRows {
            capped := true;
            continue;
          }
          buf, count := buf + [e.row], count + 1;
          if |buf| >= CHUNK_ROWS {
            OneMoreFull(q, sent, Chunk(q.controlId, buf));
            FlushChunk(q.controlId, buf);
            assert RowsSent(sent) + [] == RowsSent(sent);
            buf := [];
          }
        }
      }
    }

    static lemma Start()
      ensures RowsSent([]) == [] && RowsOf([]) == [] && forall n :: FirstRows([], n) == []
      ensures forall q :: FullChunks(q, [])
    {
    }

    /** The last partial chunk, then the terminal message. */
    method Finish(q: Query, buf: seq<Row>, count: nat, err: string)
      requires FullChunks(q, sent) && |buf| < CHUNK_ROWS
      modifies this
      ensures WellShaped(q, sent) && sent[|sent| - 1] == Final(q.controlId, count, err)
      ensures RowsSent(sent) == RowsSent(old(sent)) + buf
    {
      hide RowsSent, FullChunks, WellShaped;
      Finished(q, sent, buf, Final(q.controlId, count, err));
      FlushChunk(q.controlId, buf);
      ShipFinalError(q.controlId, count, err);
    }
  }
}
