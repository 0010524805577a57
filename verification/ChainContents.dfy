/** What whole runs leave behind: the file holds what was asked for, shipped links
    are those of its records, and shipped windows follow each other in time. */
module ChainContents {
  import opened JsonText
  import opened Chain
  import opened ChainWriter
  import opened ChainRuns

  // ----- the file says what was asked -----

  datatype Entry = Entry(ts: string, kind: string, summary: RawJson)

  /** Nothing can be recovered from such a file, so it gets an anchor. */
  predicate NeedsAnchor(lines: seq<Line>) { lines == [] || lines[0].Malformed? }

  /** What opening a file writes to it. */
  function AnchorFor(lines: seq<Line>, opening: Event): seq<Entry>
    requires opening.Restart?
  {
    if NeedsAnchor(lines) then [Entry(opening.initTs, "chain.init", opening.init)] else []
  }

  /** What the first `n` events of a run ask to be written, in order. */
  function Asked(found: seq<Line>, opening: Event, run: seq<System>, events: seq<Event>, n: nat): seq<Entry>
    requires opening.Restart? && n <= |events| <= |run|
  {
    if n == 0 then AnchorFor(found, opening)
    else
      Asked(found, opening, run, events, n - 1) +
      match events[n - 1]
      case Append(ts, kind, summary) => [Entry(ts, kind, summary)]
      case Restart(_, _, _) => AnchorFor(run[n - 1].w.lines, events[n - 1])
      case _ => []
  }

  predicate Records(l: Line, x: Entry) {
    l.Json? && l.rec.ts == x.ts && l.rec.kind == x.kind && l.rec.summary == x.summary
  }

  predicate Writes(lines: seq<Line>, from: nat, entries: seq<Entry>) {
    |lines| == from + |entries| && forall i :: 0 <= i < |entries| ==> Records(lines[from + i], entries[i])
  }

  /** At every moment the file is the one found, followed by exactly what was
      asked for: the appends with their time, kind and summary, in order, and an
      anchor for each opening of a file nothing could be recovered from. */
  lemma {:induction false} WrittenAsAsked(h: Digest, found: seq<Line>, opening: Event, run: seq<System>, events: seq<Event>,
                                          n: nat)
    requires IsRun(h, found, run, events) && n < |run| && opening.Restart?
    requires run[0] == Start(h, found, opening.openedAt, opening.initTs, opening.init, 0)
    ensures found <= run[n].w.lines && Writes(run[n].w.lines, |found|, Asked(found, opening, run, events, n))
  {
    hide Start, Writes, NewRecord, LastLinks;
    if n == 0 {
      OpeningWrites(h, found, opening, 0);
    } else {
      WrittenAsAsked(h, found, opening, run, events, n - 1);
      var lines, asked := run[n - 1].w.lines, Asked(found, opening, run, events, n - 1);
      match events[n - 1]
      case Append(ts, kind, summary) =>
        NewRecordSays(h, run[n - 1].w, ts, kind, summary);
        OneMoreWritten(lines, |found|, asked, NewRecord(h, run[n - 1].w, ts, kind, summary), Entry(ts, kind, summary));
      case Restart(now, ts, init) =>
        OpeningWrites(h, lines, events[n - 1], Reached(run[n - 1]));
        MoreWritten(lines, |found|, asked, run[n].w.lines, AnchorFor(lines, events[n - 1]));
      case _ => assert asked + [] == asked;
    }
  }

  lemma OpeningWrites(h: Digest, lines: seq<Line>, opening: Event, prior: nat)
    requires opening.Restart?
    ensures var lines' := Start(h, lines, opening.openedAt, opening.initTs, opening.init, prior).w.lines;
            lines <= lines' && Writes(lines', |lines|, AnchorFor(lines, opening))
  {
  }

  lemma NewRecordSays(h: Digest, w: State, ts: string, kind: string, summary: RawJson)
    ensures var rec := NewRecord(h, w, ts, kind, summary); rec.ts == ts && rec.kind == kind && rec.summary == summary
  {
  }

  lemma OneMoreWritten(lines: seq<Line>, from: nat, entries: seq<Entry>, rec: Record, entry: Entry)
    requires Writes(lines, from, entries)
    requires rec.ts == entry.ts && rec.kind == entry.kind && rec.summary == entry.summary
    ensures Writes(lines + [Json(rec)], from, entries + [entry])
  {
    MoreWritten(lines, from, entries, lines + [Json(rec)], [entry]);
  }

  lemma MoreWritten(lines: seq<Line>, from: nat, entries: seq<Entry>, lines': seq<Line>, more: seq<Entry>)
    requires Writes(lines, from, entries) && lines <= lines' && Writes(lines', |lines|, more)
    ensures Writes(lines', from, entries + more)
  {
    hide Records;
    forall i | 0 <= i < |entries + more|
      ensures Records(lines'[from + i], (entries + more)[i])
    {
      if i < |entries| {
        assert lines'[from + i] == lines[from + i] && Records(lines[from + i], entries[i]);
      } else {
        assert Records(lines'[|lines| + (i - |entries|)], more[i - |entries|]);
      }
    }
  }

  /** Every link of a shipped summary is that of a record in the file, with the
      record's number, kind and hashes. */
  lemma LinksAreRecords(h: Digest, found: seq<Line>, run: seq<System>, events: seq<Event>, n: nat, i: nat, j: nat)
    requires IsRun(h, found, run, events) && n < |run| && i < |run[n].shipped| && j < |run[n].shipped[i].links|
    ensures var l, lines := run[n].shipped[i].links[j], run[n].w.lines;
            exists k :: 0 <= k < |lines| && lines[k].Json? && l.seqNo == lines[k].rec.seqNo
              && l.kind == lines[k].rec.kind && l.prevHash == lines[k].rec.prevHash
              && l.recordHash == lines[k].rec.recordHash
  {
    hide IsRun, Accepted, KnownFile, LastLinks, ShippedBase, Position;
    WitnessTiling(h, found, run, events, n, i);
    KnownIsFile(h, found, run, events, n);
    var s := run[n];
    var k := LineOfLink(s, LastIsMember(s.known, ShippedBase(s, i), Position(s, s.shipped[i]), j));
  }

  /** Where a member of a window is among the known links. */
  function LastIsMember(all: seq<Link>, b: nat, e: nat, j: nat): (at: nat)
    requires b <= e <= |all| && j < |LastLinks(all[b..e])|
    ensures at < |all| && all[at] == LastLinks(all[b..e])[j]
  {
    e - |LastLinks(all[b..e])| + j
  }

  lemma LineOfLink(s: System, at: nat) returns (k: nat)
    requires KnownFile(s) && at < |s.known|
    ensures k < |s.w.lines| && s.w.lines[k].Json? && s.known[at].seqNo == s.w.lines[k].rec.seqNo
    ensures var l, rec := s.known[at], s.w.lines[k].rec;
            l.kind == rec.kind && l.prevHash == rec.prevHash && l.recordHash == rec.recordHash
  {
    k := if at < s.seeded then at else s.found + (at - s.seeded);
  }

  // ----- windows in time -----

  /** The clock has not fallen behind the start of the window, and is past zero. */
  ghost predicate ClockForward(run: seq<System>, events: seq<Event>) {
    && |run| == |events| + 1 && run[0].openedAt > ZERO_TIME
    && forall i :: 0 <= i < |events| ==>
         && (events[i].Tick? ==> events[i].now >= run[i].w.windowSince)
         && (events[i].Restart? ==> events[i].openedAt > ZERO_TIME)
  }

  /** No window was handed back that held nothing. */
  ghost predicate NoEmptyReturn(run: seq<System>, events: seq<Event>) {
    |run| == |events| + 1 &&
    forall i :: 0 <= i < |events| && events[i].GiveBack? && run[i].inflight.Some? ==>
      run[i].inflight.value.links != [] || run[i].inflight.value.count > 0
  }

  /** One window ends where, or before, the next begins. */
  predicate Meets(exact: bool, a: int, b: int) { if exact then a == b else a <= b }

  function ShippedAt(s: System, i: nat): int
    requires i <= |s.shipped|
  {
    if i == 0 then s.openedAt else s.shipped[i - 1].observedAt
  }

  predicate SpanOk(exact: bool, from: int, snap: Snapshot) {
    Meets(exact, from, snap.since) && ZERO_TIME < snap.since <= snap.observedAt
  }

  predicate TimesOk(exact: bool, s: System) {
    && s.openedAt > ZERO_TIME && s.w.windowSince > ZERO_TIME
    && (forall i :: 0 <= i < |s.shipped| ==> SpanOk(exact, ShippedAt(s, i), s.shipped[i]))
    && (s.inflight.Some? ==> SpanOk(exact, ShippedAt(s, |s.shipped|), s.inflight.value))
    && Meets(exact, if s.inflight.Some? then s.inflight.value.observedAt else ShippedAt(s, |s.shipped|), s.w.windowSince)
  }

  /** Shipped windows follow each other in time: the first begins when the writer
      was opened, and each of the others where the one before it ended, or later if
      an empty window was handed back in between. */
  lemma {:induction false} WindowsMeet(h: Digest, found: seq<Line>, run: seq<System>, events: seq<Event>, n: nat)
    requires IsRun(h, found, run, events) && n < |run| && ClockForward(run, events)
    ensures TimesOk(false, run[n])
    ensures NoEmptyReturn(run, events) ==> TimesOk(true, run[n])
  {
    if n > 0 {
      WindowsMeet(h, found, run, events, n - 1);
      StepTimes(h, run[n - 1], events[n - 1], false);
      if NoEmptyReturn(run, events) {
        StepTimes(h, run[n - 1], events[n - 1], true);
      }
    }
  }

  lemma StepTimes(h: Digest, s: System, e: Event, exact: bool)
    requires TimesOk(exact, s) && TimesOk(false, s) && Enabled(s, e)
    requires e.Tick? ==> e.now >= s.w.windowSince
    requires e.Restart? ==> e.openedAt > ZERO_TIME
    requires exact && e.GiveBack? ==> s.inflight.value.links != [] || s.inflight.value.count > 0
    ensures TimesOk(exact, Step(h, s, e))
  {
    hide NewRecord, LastLinks, SpanOk;
    match e
    case Append(ts, kind, summary) => SameTimes(exact, s, Step(h, s, e));
    case Tick(now) => TickTimes(exact, s, Step(h, s, e));
    case Ship => ShipTimes(exact, s, Step(h, s, e));
    case GiveBack => ReturnTimes(exact, s, Step(h, s, e));
    case Restart(now, ts, init) =>
  }

  lemma EarlierShipped(exact: bool, s: System, s': System, n: nat)
    requires TimesOk(exact, s) && s'.openedAt == s.openedAt
    requires n == |s.shipped| <= |s'.shipped| && s'.shipped[..n] == s.shipped
    ensures forall i :: 0 <= i < n ==> SpanOk(exact, ShippedAt(s', i), s'.shipped[i])
    ensures ShippedAt(s', n) == ShippedAt(s, n)
  {
    hide SpanOk;
    assert forall i :: 0 <= i < n ==> s'.shipped[i] == s.shipped[i];
    forall i | 0 <= i < n
      ensures SpanOk(exact, ShippedAt(s', i), s'.shipped[i])
    {
      assert ShippedAt(s', i) == ShippedAt(s, i);
      assert SpanOk(exact, ShippedAt(s, i), s.shipped[i]);
    }
  }

  lemma SameTimes(exact: bool, s: System, s': System)
    requires TimesOk(exact, s) && s'.openedAt == s.openedAt && s'.shipped == s.shipped && s'.inflight == s.inflight
    requires s'.w.windowSince == s.w.windowSince
    ensures TimesOk(exact, s')
  {
    hide SpanOk;
    EarlierShipped(exact, s, s', |s.shipped|);
  }

  lemma TickTimes(exact: bool, s: System, s': System)
    requires TimesOk(exact, s) && s.inflight.None? && s'.openedAt == s.openedAt && s'.shipped == s.shipped
    requires s'.inflight.Some? && s'.inflight.value.since == s.w.windowSince <= s'.inflight.value.observedAt
    requires s'.w.windowSince == s'.inflight.value.observedAt
    ensures TimesOk(exact, s')
  {
    EarlierShipped(exact, s, s', |s.shipped|);
  }

  lemma ShipTimes(exact: bool, s: System, s': System)
    requires TimesOk(exact, s) && s.inflight.Some? && s'.inflight.None? && s'.openedAt == s.openedAt
    requires s'.shipped == s.shipped + [s.inflight.value] && s'.w.windowSince == s.w.windowSince
    ensures TimesOk(exact, s')
  {
    hide SpanOk;
    EarlierShipped(exact, s, s', |s.shipped|);
    forall i | 0 <= i < |s'.shipped|
      ensures SpanOk(exact, ShippedAt(s', i), s'.shipped[i])
    {
    }
  }

  lemma ReturnTimes(exact: bool, s: System, s': System)
    requires TimesOk(exact, s) && TimesOk(false, s) && s.inflight.Some? && s'.inflight.None? && s'.openedAt == s.openedAt
    requires s'.shipped == s.shipped && s'.w == WindowReturned(s.w, s.inflight.value)
    requires exact ==> s.inflight.value.links != [] || s.inflight.value.count > 0
    ensures TimesOk(exact, s')
  {
    EarlierShipped(exact, s, s', |s.shipped|);
  }
}
