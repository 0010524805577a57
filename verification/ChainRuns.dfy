/** Whole runs of one chain file: appends, the summary ticker's snapshot that
    is either shipped or handed back (runChainSummaryTicker in
    agent/internal/app/app.go), and restarts of the agent. Appends may fall
    between a snapshot and its shipping or return. */
module ChainRuns {
  import opened Wrappers
  import opened Collections
  import opened JsonText
  import opened Chain
  import opened ChainWriter

  /** `inflight` is a snapshot the ticker has taken and not yet disposed of and
      `shipped` are the summaries shipped since this writer was opened. The rest
      is history: `found` lines were in the file when it was opened, `seeded` of
      them decoded; `known` are the links of those and of every record appended
      since; `prior` is where the chain stood at the last summary shipped before,
      0 if there was none; `openedAt` is when the writer was opened. */
  datatype System = System(w: State, inflight: Option<Snapshot>, shipped: seq<Snapshot>,
                           found: nat, seeded: nat, known: seq<Link>, prior: nat, openedAt: int)

  datatype Event =
    | Append(ts: string, kind: string, summary: RawJson)
    | Tick(now: int)
    | Ship
    | GiveBack
    | Restart(openedAt: int, initTs: string, init: RawJson)

  predicate Enabled(s: System, e: Event) {
    match e
    case Append(_, _, _) => true
    case Tick(_) => s.inflight.None?
    case Ship => s.inflight.Some?
    case GiveBack => s.inflight.Some?
    case Restart(_, _, _) => true
  }

  function Start(h: Digest, lines: seq<Line>, now: int, ts: string, init: RawJson, prior: nat): System {
    var k := GoodPrefix(lines);
    var seed := LinksOf(lines[..k]);
    var anchor := LinkOf(NewRecord(h, Recovered(lines, now), ts, INIT_KIND, init));
    System(Opened(h, lines, now, ts, init), None, [], |lines|, k, if k == 0 then [anchor] else seed, prior, now)
  }

  /** How much of the chain the shipped summaries have reached. */
  function Reached(s: System): nat {
    if s.shipped == [] then s.prior else Last(s.shipped).lastSeq + 1
  }

  function Step(h: Digest, s: System, e: Event): System
    requires Enabled(s, e)
  {
    match e
    case Append(ts, kind, summary) =>
      s.(w := Appended(h, s.w, ts, kind, summary),
         known := s.known + [LinkOf(NewRecord(h, s.w, ts, kind, summary))])
    case Tick(now) => s.(w := WindowReset(s.w, now), inflight := Some(SnapshotOf(s.w, now)))
    case Ship => s.(inflight := None, shipped := s.shipped + [s.inflight.value])
    case GiveBack => s.(w := WindowReturned(s.w, s.inflight.value), inflight := None)
    case Restart(now, ts, init) => Start(h, s.w.lines, now, ts, init, Reached(s))
  }

  /** A run that opens the file `found`: the states it passes through. */
  ghost predicate IsRun(h: Digest, found: seq<Line>, run: seq<System>, events: seq<Event>) {
    && |run| == |events| + 1
    && (exists now, ts, init :: run[0] == Start(h, found, now, ts, init, 0))
    && forall i :: 0 <= i < |events| ==> Enabled(run[i], events[i]) && run[i + 1] == Step(h, run[i], events[i])
  }

  function TotalCount(snaps: seq<Snapshot>): nat {
    if snaps == [] then 0 else TotalCount(snaps[..|snaps| - 1]) + snaps[|snaps| - 1].count
  }

  /** The records that count towards summaries: all but the synthetic anchor. */
  function Eligible(lines: seq<Line>): nat {
    if lines == [] then 0
    else
      var l := lines[|lines| - 1];
      Eligible(lines[..|lines| - 1]) + (if l.Json? && l.rec.kind != INIT_KIND then 1 else 0)
  }

  function InflightCount(s: System): nat { if s.inflight.Some? then s.inflight.value.count else 0 }

  /** Every record's link, in file order. */
  function ChainLinks(h: Digest, lines: seq<Line>): (links: seq<Link>)
    requires Accepted(h, lines)
    ensures |links| == |lines|
  {
    AllJson(h, lines);
    LinksOf(lines)
  }

  predicate IsSuffix<T(==)>(s: seq<T>, t: seq<T>) { |s| <= |t| && s == t[|t| - |s|..] }

  /** Link `i` has the next number and names its predecessor's hash. */
  predicate FollowsOn(links: seq<Link>, i: nat)
    requires 0 < i < |links|
  {
    links[i].seqNo == links[i - 1].seqNo + 1 && links[i].prevHash == links[i - 1].recordHash
  }

  predicate GapFree(links: seq<Link>) { forall i :: 0 < i < |links| ==> FollowsOn(links, i) }

  /** One firing of the ticker: the summary is sent if the sink has room, and
      otherwise handed back. */
  method SummaryTick(chain: ChainWriter, now: int, sinkHasRoom: bool) returns (sent: Option<Snapshot>)
    modifies chain
    ensures chain.open == old(chain.open)
    ensures sinkHasRoom ==> sent == Some(SnapshotOf(old(chain.View()), now))
    ensures sinkHasRoom ==> chain.View() == WindowReset(old(chain.View()), now)
    ensures !sinkHasRoom ==> sent == None
    ensures !sinkHasRoom ==>
              chain.View() == WindowReturned(WindowReset(old(chain.View()), now), SnapshotOf(old(chain.View()), now))
  {
    var snap := chain.SnapshotAndReset(now);
    if sinkHasRoom {
      return Some(snap);
    }
    chain.ReturnWindow(snap);
    return None;
  }

  /** Taking a snapshot and handing it straight back undoes it: links, count and
      flag are as before, and so is the start of a window that held anything. */
  lemma ReturnUndoesSnapshot(w: State, now: int)
    requires |w.windowLinks| <= MAX_WINDOW_LINKS && w.windowSince != ZERO_TIME && w.windowSince <= now
    requires w.windowTruncated ==> w.windowLinks != []
    ensures WindowReturned(WindowReset(w, now), SnapshotOf(w, now))
         == if w.windowLinks == [] && w.windowCount == 0 then w.(windowSince := now) else w
  {
    assert w.windowLinks + [] == w.windowLinks;
  }

  // ----- the invariant -----

  /** The writer stands right behind the last link it knows, and every record it
      appended follows on, whatever the found lines were. */
  predicate KnownOk(s: System) {
    && s.known != [] && s.seeded <= |s.known|
    && s.w.seqNo == Last(s.known).seqNo + 1 && s.w.prevHash == Last(s.known).recordHash
    && (forall i :: s.seeded <= i < |s.known| && 0 < i ==> FollowsOn(s.known, i))
  }

  /** A window over the links from `b` up to `n`: the last 512 of them, flagged
      if and only if that is not all. */
  predicate Window(all: seq<Link>, b: nat, n: nat, links: seq<Link>, truncated: bool) {
    && b <= n <= |all|
    && links == LastLinks(all[b..n])
    && (truncated <==> n - b > MAX_WINDOW_LINKS)
  }

  /** How many links lie at and before the one a snapshot ends with. */
  function Position(s: System, snap: Snapshot): int { snap.lastSeq + 1 - (s.w.seqNo - |s.known|) }

  /** Where the window of a writer that has shipped nothing begins. */
  function SeedStart(seeded: nat): nat { if seeded > MAX_WINDOW_LINKS then seeded - MAX_WINDOW_LINKS else 0 }

  /** Where the i-th shipped summary, or the next one, begins. */
  function ShippedBase(s: System, i: nat): int
    requires i <= |s.shipped|
  {
    if i == 0 then SeedStart(s.seeded) else Position(s, s.shipped[i - 1])
  }

  function LiveBase(s: System): int {
    if s.inflight.Some? then Position(s, s.inflight.value) else ShippedBase(s, |s.shipped|)
  }

  predicate SnapOk(s: System, b: int, snap: Snapshot) {
    var n := Position(s, snap);
    && 0 <= b && 0 < n && s.seeded <= n
    && Window(s.known, b, n, snap.links, snap.linksTruncated)
    && snap.lastHash == s.known[n - 1].recordHash
  }

  predicate ShippedOk(s: System) {
    forall i :: 0 <= i < |s.shipped| ==> SnapOk(s, ShippedBase(s, i), s.shipped[i])
  }

  predicate InflightOk(s: System) {
    s.inflight.Some? ==> SnapOk(s, ShippedBase(s, |s.shipped|), s.inflight.value)
  }

  predicate LiveOk(s: System) {
    0 <= LiveBase(s) && Window(s.known, LiveBase(s), |s.known|, s.w.windowLinks, s.w.windowTruncated)
  }

  predicate Inv(s: System) { KnownOk(s) && ShippedOk(s) && InflightOk(s) && LiveOk(s) }

  // ----- windows -----

  lemma WindowGrows(all: seq<Link>, l: Link, b: nat, n: nat, links: seq<Link>, truncated: bool)
    requires Window(all, b, n, links, truncated)
    ensures Window(all + [l], b, n, links, truncated)
  {
    assert (all + [l])[b..n] == all[b..n];
  }

  lemma WindowPush(all: seq<Link>, l: Link, b: nat, links: seq<Link>, truncated: bool)
    requires Window(all, b, |all|, links, truncated)
    ensures Window(all + [l], b, |all| + 1, LastLinks(links + [l]), truncated || |links + [l]| > MAX_WINDOW_LINKS)
  {
    assert (all + [l])[b..|all| + 1] == all[b..] + [l];
    assert all[b..|all|] == all[b..];
    LastOfLast(all[b..], l);
  }

  /** Two adjacent windows put together. */
  lemma WindowJoin(all: seq<Link>, b: nat, m: nat, x: seq<Link>, xt: bool, y: seq<Link>, yt: bool)
    requires Window(all, b, m, x, xt) && Window(all, m, |all|, y, yt)
    ensures Window(all, b, |all|, LastLinks(x + y), xt || yt || |x + y| > MAX_WINDOW_LINKS)
    ensures x == [] ==> b == m && !xt
  {
    var u, v := all[b..m], all[m..|all|];
    assert all[b..|all|] == u + v;
    LastOfBoth(u, v);
  }

  lemma LastOfBoth<T>(u: seq<T>, v: seq<T>)
    ensures LastLinks(LastLinks(u) + LastLinks(v)) == LastLinks(u + v)
  {
  }

  lemma EmptyWindow(all: seq<Link>)
    ensures Window(all, |all|, |all|, [], false)
  {
    assert all[|all|..|all|] == [];
  }

  // ----- preservation, event by event -----

  lemma StartOk(h: Digest, lines: seq<Line>, now: int, ts: string, init: RawJson, prior: nat)
    ensures Inv(Start(h, lines, now, ts, init, prior))
  {
    hide Start, FollowsOn, Window;
    var s := Start(h, lines, now, ts, init, prior);
    StartIs(h, lines, now, ts, init, prior);
    SeededWindow(s.known, s.seeded);
  }

  lemma StartIs(h: Digest, lines: seq<Line>, now: int, ts: string, init: RawJson, prior: nat)
    ensures var s := Start(h, lines, now, ts, init, prior);
            && s.inflight.None? && s.shipped == [] && s.known != [] && |s.known| == (if s.seeded == 0 then 1 else s.seeded)
            && s.w.seqNo == Last(s.known).seqNo + 1 && s.w.prevHash == Last(s.known).recordHash
            && s.w.windowLinks == LastLinks(s.known) && !s.w.windowTruncated
  {
    NothingSeeded(lines);
  }

  lemma SeededWindow(known: seq<Link>, seeded: nat)
    requires |known| == if seeded == 0 then 1 else seeded
    ensures Window(known, SeedStart(seeded), |known|, LastLinks(known), false)
  {
    assert known[SeedStart(seeded)..|known|] == LastLinks(known);
  }

  lemma AppendOk(h: Digest, s: System, ts: string, kind: string, summary: RawJson)
    requires Inv(s)
    ensures Inv(Step(h, s, Append(ts, kind, summary)))
  {
    var s' := Step(h, s, Append(ts, kind, summary));
    var l := LinkOf(NewRecord(h, s.w, ts, kind, summary));
    hide KnownOk, ShippedOk, InflightOk, LiveOk;
    AppendKnown(s, s', l);
    AppendWindows(s, s', l);
    AppendLive(s, s', l);
  }

  lemma AppendLive(s: System, s': System, l: Link)
    requires LiveOk(s) && s'.known == s.known + [l] && s'.w.seqNo == s.w.seqNo + 1
    requires s'.seeded == s.seeded && s'.shipped == s.shipped && s'.inflight == s.inflight
    requires s'.w.windowLinks == LastLinks(s.w.windowLinks + [l])
    requires s'.w.windowTruncated == (s.w.windowTruncated || |s.w.windowLinks + [l]| > MAX_WINDOW_LINKS)
    ensures LiveOk(s')
  {
    hide Window;
    WindowPush(s.known, l, LiveBase(s), s.w.windowLinks, s.w.windowTruncated);
    assert LiveBase(s') == LiveBase(s);
  }

  lemma AppendKnown(s: System, s': System, l: Link)
    requires KnownOk(s) && s'.known == s.known + [l] && s'.seeded == s.seeded
    requires l.seqNo == s.w.seqNo && l.prevHash == s.w.prevHash
    requires s'.w.seqNo == s.w.seqNo + 1 && s'.w.prevHash == l.recordHash
    ensures KnownOk(s')
  {
    forall i | s.seeded <= i < |s'.known| && 0 < i
      ensures FollowsOn(s'.known, i)
    {
      assert i < |s.known| ==> FollowsOn(s.known, i);
    }
  }

  lemma AppendWindows(s: System, s': System, l: Link)
    requires ShippedOk(s) && InflightOk(s) && s'.known == s.known + [l] && s'.w.seqNo == s.w.seqNo + 1
    requires s'.seeded == s.seeded && s'.shipped == s.shipped && s'.inflight == s.inflight
    ensures ShippedOk(s') && InflightOk(s')
  {
    hide SnapOk;
    forall i | 0 <= i < |s'.shipped|
      ensures SnapOk(s', ShippedBase(s', i), s'.shipped[i])
    {
      SnapGrows(s, s', l, ShippedBase(s, i), s.shipped[i]);
      assert ShippedBase(s', i) == ShippedBase(s, i);
    }
    if s.inflight.Some? {
      assert ShippedBase(s', |s.shipped|) == ShippedBase(s, |s.shipped|);
      SnapGrows(s, s', l, ShippedBase(s, |s.shipped|), s.inflight.value);
    }
  }

  lemma SnapGrows(s: System, s': System, l: Link, b: int, snap: Snapshot)
    requires SnapOk(s, b, snap) && s'.known == s.known + [l] && s'.w.seqNo == s.w.seqNo + 1 && s'.seeded == s.seeded
    ensures SnapOk(s', b, snap)
  {
    WindowGrows(s.known, l, b, Position(s, snap), snap.links, snap.linksTruncated);
  }

  lemma TickOk(s: System, now: int)
    requires Inv(s) && s.inflight.None?
    ensures Inv(s.(w := WindowReset(s.w, now), inflight := Some(SnapshotOf(s.w, now))))
  {
    hide Window, FollowsOn;
    var s' := s.(w := WindowReset(s.w, now), inflight := Some(SnapshotOf(s.w, now)));
    EmptyWindow(s.known);
    assert Position(s', s'.inflight.value) == |s.known|;
    SameShipped(s, s');
  }

  /** Shipped summaries do not depend on the live window. */
  lemma SameShipped(s: System, s': System)
    requires ShippedOk(s) && s'.known == s.known && s'.w.seqNo == s.w.seqNo
    requires s'.seeded == s.seeded && s'.shipped == s.shipped
    ensures ShippedOk(s') && ShippedBase(s', |s'.shipped|) == ShippedBase(s, |s.shipped|)
  {
    hide SnapOk;
    forall i | 0 <= i < |s'.shipped|
      ensures SnapOk(s', ShippedBase(s', i), s'.shipped[i])
    {
      SameSnap(s, s', ShippedBase(s, i), s.shipped[i]);
      assert ShippedBase(s', i) == ShippedBase(s, i);
    }
  }

  lemma ShipOk(s: System)
    requires Inv(s) && s.inflight.Some?
    ensures Inv(s.(inflight := None, shipped := s.shipped + [s.inflight.value]))
  {
    hide SnapOk, Window, FollowsOn;
    var s' := s.(inflight := None, shipped := s.shipped + [s.inflight.value]);
    forall i | 0 <= i < |s'.shipped|
      ensures SnapOk(s', ShippedBase(s', i), s'.shipped[i])
    {
      SameSnap(s, s', ShippedBase(s, i), s'.shipped[i]);
      assert ShippedBase(s', i) == ShippedBase(s, i);
    }
    assert KnownOk(s') && LiveBase(s') == LiveBase(s);
  }

  lemma SameSnap(s: System, s': System, b: int, snap: Snapshot)
    requires SnapOk(s, b, snap) && s'.known == s.known && s'.w.seqNo == s.w.seqNo && s'.seeded == s.seeded
    ensures SnapOk(s', b, snap)
  {
    hide Window;
  }

  lemma GiveBackOk(s: System)
    requires Inv(s) && s.inflight.Some?
    ensures Inv(s.(w := WindowReturned(s.w, s.inflight.value), inflight := None))
  {
    hide Window, FollowsOn;
    var snap := s.inflight.value;
    var s' := s.(w := WindowReturned(s.w, snap), inflight := None);
    var b, m := ShippedBase(s, |s.shipped|), Position(s, snap);
    WindowJoin(s.known, b, m, snap.links, snap.linksTruncated, s.w.windowLinks, s.w.windowTruncated);
    assert [] + s.w.windowLinks == s.w.windowLinks;
    SameShipped(s, s');
  }

  lemma StepPreserves(h: Digest, s: System, e: Event)
    requires Inv(s) && Enabled(s, e)
    ensures Inv(Step(h, s, e))
  {
    hide Inv;
    match e
    case Append(ts, kind, summary) => AppendOk(h, s, ts, kind, summary);
    case Tick(now) => TickOk(s, now);
    case Ship => ShipOk(s);
    case GiveBack => GiveBackOk(s);
    case Restart(now, ts, init) => StartOk(h, s.w.lines, now, ts, init, Reached(s));
  }

  lemma {:induction false} RunInvariant(h: Digest, found: seq<Line>, run: seq<System>, events: seq<Event>, n: nat)
    requires IsRun(h, found, run, events) && n < |run|
    ensures Inv(run[n])
  {
    hide Inv;
    if n == 0 {
      var now, ts, init :| run[0] == Start(h, found, now, ts, init, 0);
      StartOk(h, found, now, ts, init, 0);
    } else {
      RunInvariant(h, found, run, events, n - 1);
      StepPreserves(h, run[n - 1], events[n - 1]);
    }
  }

  // ----- accepted files -----

  lemma AllJson(h: Digest, lines: seq<Line>)
    requires Accepted(h, lines)
    ensures forall i :: 0 <= i < |lines| ==> lines[i].Json?
  {
    forall i | 0 <= i < |lines|
      ensures lines[i].Json?
    {
      assert LinkOk(h, lines, i);
    }
  }

  lemma ChainIsGapFree(h: Digest, lines: seq<Line>)
    requires Accepted(h, lines)
    ensures GapFree(ChainLinks(h, lines))
    ensures forall i :: 0 <= i < |lines| ==> lines[i].Json? && lines[i].rec.seqNo == i
  {
    AllJson(h, lines);
    var all := ChainLinks(h, lines);
    forall i | 0 < i < |all|
      ensures FollowsOn(all, i)
    {
      assert LinkOk(h, lines, i) && LinkOk(h, lines, i - 1);
    }
    forall i | 0 <= i < |lines|
      ensures lines[i].Json? && lines[i].rec.seqNo == i
    {
      assert LinkOk(h, lines, i);
    }
  }

  /** In a run over an accepted file, the writer knows exactly the file. */
  predicate FileOk(h: Digest, s: System) {
    && s.w.lines != [] && Accepted(h, s.w.lines) && s.w.seqNo == |s.w.lines|
    && s.w.prevHash == TailHash(h, s.w.lines) && s.known == ChainLinks(h, s.w.lines)
    && s.seeded == s.found <= |s.w.lines| && s.prior <= s.found
    && (s.inflight.Some? ==> s.inflight.value.lastSeq < |s.w.lines|)
    && (s.shipped != [] ==> Last(s.shipped).lastSeq < |s.w.lines|)
  }

  lemma AcceptedExtend(h: Digest, w: State, ts: string, kind: string, summary: RawJson)
    requires Accepted(h, w.lines) && w.seqNo == |w.lines|
    requires w.prevHash == if w.lines == [] then ZERO_HASH else TailHash(h, w.lines)
    ensures var w' := Appended(h, w, ts, kind, summary);
            && Accepted(h, w'.lines) && TailHash(h, w'.lines) == w'.prevHash
            && ChainLinks(h, w'.lines) == ChainLinks(h, w.lines) + [LinkOf(NewRecord(h, w, ts, kind, summary))]
  {
    var lines' := Appended(h, w, ts, kind, summary).lines;
    forall i | 0 <= i < |lines'|
      ensures LinkOk(h, lines', i)
    {
      if i < |w.lines| {
        assert LinkOk(h, w.lines, i);
      } else if i > 0 {
        assert LinkOk(h, w.lines, i - 1);
      }
    }
    AllJson(h, w.lines);
    AllJson(h, lines');
  }

  lemma StartAccepted(h: Digest, lines: seq<Line>, now: int, ts: string, init: RawJson, prior: nat)
    requires Accepted(h, lines) && prior <= |lines|
    ensures FileOk(h, Start(h, lines, now, ts, init, prior))
  {
    AllJson(h, lines);
    GoodPrefixIs(lines, |lines|);
    assert lines[..|lines|] == lines;
    if lines == [] {
      AcceptedExtend(h, Recovered(lines, now), ts, INIT_KIND, init);
    } else {
      assert LinkOk(h, lines, |lines| - 1);
    }
  }

  lemma StepAccepted(h: Digest, s: System, e: Event)
    requires FileOk(h, s) && Enabled(s, e)
    ensures FileOk(h, Step(h, s, e))
  {
    hide Accepted, ChainLinks, Opened, Recovered, GoodPrefix;
    match e
    case Append(ts, kind, summary) => AcceptedExtend(h, s.w, ts, kind, summary);
    case Restart(now, ts, init) => StartAccepted(h, s.w.lines, now, ts, init, Reached(s));
    case _ =>
  }

  lemma {:induction false} RunAccepted(h: Digest, found: seq<Line>, run: seq<System>, events: seq<Event>, n: nat)
    requires IsRun(h, found, run, events) && n < |run| && Accepted(h, found)
    ensures FileOk(h, run[n])
  {
    hide FileOk;
    if n == 0 {
      var now, ts, init :| run[0] == Start(h, found, now, ts, init, 0);
      StartAccepted(h, found, now, ts, init, 0);
    } else {
      RunAccepted(h, found, run, events, n - 1);
      StepAccepted(h, run[n - 1], events[n - 1]);
    }
  }

  lemma {:induction false} FileOnlyGrows(h: Digest, found: seq<Line>, run: seq<System>, events: seq<Event>, n: nat)
    requires IsRun(h, found, run, events) && n < |run|
    ensures found <= run[n].w.lines
  {
    if n > 0 {
      FileOnlyGrows(h, found, run, events, n - 1);
      assert run[n - 1].w.lines <= Step(h, run[n - 1], events[n - 1]).w.lines;
    }
  }

  lemma AcceptedPrefix(h: Digest, lines: seq<Line>, more: seq<Line>)
    requires lines <= more && Accepted(h, more)
    ensures Accepted(h, lines)
  {
    forall i | 0 <= i < |lines|
      ensures LinkOk(h, lines, i)
    {
      assert LinkOk(h, more, i);
    }
  }

  // ----- the theorems -----

  /** At every moment of every run the verifier accepts the file if and only if
      it accepted the file the run started from, so the writer neither breaks a
      chain nor mends a broken one. An accepted file has its records numbered
      0..n-1 and the writer stands right behind the last one. */
  lemma WriterAgreesWithVerifier(h: Digest, found: seq<Line>, run: seq<System>, events: seq<Event>, n: nat)
    requires IsRun(h, found, run, events) && n < |run|
    ensures Accepted(h, run[n].w.lines) <==> Accepted(h, found)
    ensures Accepted(h, found) ==>
              forall i :: 0 <= i < |run[n].w.lines| ==> run[n].w.lines[i].Json? && run[n].w.lines[i].rec.seqNo == i
    ensures Accepted(h, found) ==> run[n].w.lines != [] && run[n].w.seqNo == |run[n].w.lines|
    ensures Accepted(h, found) ==> run[n].w.prevHash == TailHash(h, run[n].w.lines)
    ensures Accepted(h, found) ==> run[n].known == ChainLinks(h, run[n].w.lines)
  {
    FileOnlyGrows(h, found, run, events, n);
    if Accepted(h, found) {
      RunAccepted(h, found, run, events, n);
      ChainIsGapFree(h, run[n].w.lines);
    } else if Accepted(h, run[n].w.lines) {
      AcceptedPrefix(h, found, run[n].w.lines);
    }
  }

  /** The known links are those of the found lines that decoded and of all lines
      written since. */
  predicate KnownFile(s: System) {
    && s.seeded <= s.found <= |s.w.lines|
    && (forall i :: 0 <= i < s.seeded ==> s.w.lines[i].Json?)
    && (forall i :: s.found <= i < |s.w.lines| ==> s.w.lines[i].Json?)
    && s.known == LinksOf(s.w.lines[..s.seeded]) + LinksOf(s.w.lines[s.found..])
  }

  lemma {:induction false} KnownIsFile(h: Digest, found: seq<Line>, run: seq<System>, events: seq<Event>, n: nat)
    requires IsRun(h, found, run, events) && n < |run|
    ensures KnownFile(run[n])
  {
    if n == 0 {
      var now, ts, init :| run[0] == Start(h, found, now, ts, init, 0);
      StartKnown(h, found, now, ts, init, 0);
    } else {
      KnownIsFile(h, found, run, events, n - 1);
      StepKnown(h, run[n - 1], events[n - 1]);
    }
  }

  lemma StartKnown(h: Digest, lines: seq<Line>, now: int, ts: string, init: RawJson, prior: nat)
    ensures KnownFile(Start(h, lines, now, ts, init, prior))
  {
    var s := Start(h, lines, now, ts, init, prior);
    assert s.w.lines[..s.seeded] == lines[..s.seeded];
    assert s.w.lines[s.found..] == if s.seeded == 0 then [Last(s.w.lines)] else [];
  }

  lemma StepKnown(h: Digest, s: System, e: Event)
    requires KnownFile(s) && Enabled(s, e)
    ensures KnownFile(Step(h, s, e))
  {
    hide Start, NewRecord;
    var s' := Step(h, s, e);
    match e
    case Append(ts, kind, summary) =>
      assert s'.w.lines[..s.seeded] == s.w.lines[..s.seeded];
      assert s'.w.lines[s.found..] == s.w.lines[s.found..] + [Last(s'.w.lines)];
    case Restart(now, ts, init) => StartKnown(h, s.w.lines, now, ts, init, Reached(s));
    case _ =>
  }

  /** At every moment, over any file, the live window is a suffix of at most 512
      of the links this writer knows, and every record it appended follows on in
      number and hash; over an accepted file the whole window is gap-free. */
  lemma LiveWindowIsSuffix(h: Digest, found: seq<Line>, run: seq<System>, events: seq<Event>, n: nat)
    requires IsRun(h, found, run, events) && n < |run|
    ensures IsSuffix(run[n].w.windowLinks, run[n].known) && |run[n].w.windowLinks| <= MAX_WINDOW_LINKS
    ensures forall i :: run[n].seeded <= i < |run[n].known| && 0 < i ==> FollowsOn(run[n].known, i)
    ensures Accepted(h, found) ==> GapFree(run[n].w.windowLinks)
  {
    hide Window, IsRun, Accepted, ChainLinks, GapFree, IsSuffix;
    RunInvariant(h, found, run, events, n);
    var s := run[n];
    WindowIsSuffix(s.known, LiveBase(s), s.w.windowLinks, s.w.windowTruncated);
    if Accepted(h, found) {
      RunAccepted(h, found, run, events, n);
      ChainIsGapFree(h, s.w.lines);
      SuffixGapFree(s.known, s.w.windowLinks);
    }
  }

  lemma WindowIsSuffix(all: seq<Link>, b: nat, links: seq<Link>, truncated: bool)
    requires Window(all, b, |all|, links, truncated)
    ensures IsSuffix(links, all) && |links| <= MAX_WINDOW_LINKS
  {
    assert all[b..|all|] == all[b..];
  }

  lemma SuffixGapFree(all: seq<Link>, links: seq<Link>)
    requires GapFree(all) && IsSuffix(links, all)
    ensures GapFree(links)
  {
    var d := |all| - |links|;
    forall i | 0 < i < |links|
      ensures FollowsOn(links, i)
    {
      assert FollowsOn(all, d + i);
    }
  }

  /** Witness tiling, over any file: a shipped summary carries the last 512 of
      the links from where the previous one ended (the first one: from the seeded
      window's start) up to its own last record, it is flagged if and only if
      those are not all, and it ends in its LastHash. */
  lemma WitnessTiling(h: Digest, found: seq<Line>, run: seq<System>, events: seq<Event>, n: nat, i: nat)
    requires IsRun(h, found, run, events) && n < |run| && i < |run[n].shipped|
    ensures var s, snap := run[n], run[n].shipped[i];
            var b, e := ShippedBase(s, i), Position(s, snap);
            && 0 <= b <= e <= |s.known| && 0 < e && s.seeded <= e
            && snap.links == LastLinks(s.known[b..e])
            && (snap.linksTruncated <==> e - b > MAX_WINDOW_LINKS)
            && snap.lastHash == s.known[e - 1].recordHash
            && (s.seeded < e ==> s.known[e - 1].seqNo == snap.lastSeq)
    ensures Accepted(h, found) ==> Position(run[n], run[n].shipped[i]) == run[n].shipped[i].lastSeq + 1
  {
    RunInvariant(h, found, run, events, n);
    var s, snap := run[n], run[n].shipped[i];
    assert SnapOk(s, ShippedBase(s, i), snap);
    if s.seeded < Position(s, snap) {
      KnownNumber(s, Position(s, snap) - 1);
    }
    if Accepted(h, found) {
      RunAccepted(h, found, run, events, n);
    }
  }

  /** The records a writer appended are numbered up to its own next number. */
  lemma {:induction false} KnownNumber(s: System, i: nat)
    requires KnownOk(s) && s.seeded <= i < |s.known|
    ensures s.known[i].seqNo == s.w.seqNo - |s.known| + i
    decreases |s.known| - i
  {
    if i + 1 < |s.known| {
      KnownNumber(s, i + 1);
      assert FollowsOn(s.known, i + 1);
    }
  }

  /** The first summary of a writer's life carries everything from link `from` on. */
  predicate CarriesFrom(s: System, from: nat)
    requires s.shipped != []
  {
    var e := Position(s, s.shipped[0]);
    0 <= from <= e <= |s.known| && IsSuffix(s.known[from..e], s.shipped[0].links)
  }

  /** Does the first summary after a restart connect to what was shipped before?
      Unflagged, it carries every record since then if and only if no more than
      512 records had been appended beyond it when the file was reopened, and it
      overlaps the last shipped record if and only if they were fewer. */
  lemma RestartConnects(h: Digest, found: seq<Line>, run: seq<System>, events: seq<Event>, n: nat)
    requires IsRun(h, found, run, events) && n < |run| && Accepted(h, found)
    requires run[n].shipped != [] && !run[n].shipped[0].linksTruncated
    ensures CarriesFrom(run[n], run[n].prior) <==> run[n].found - run[n].prior <= MAX_WINDOW_LINKS
    ensures run[n].prior > 0 ==>
              (CarriesFrom(run[n], run[n].prior - 1) <==> run[n].found - run[n].prior < MAX_WINDOW_LINKS)
    ensures run[n].found <= MAX_WINDOW_LINKS ==> CarriesFrom(run[n], 0)
  {
    RunInvariant(h, found, run, events, n);
    RunAccepted(h, found, run, events, n);
    var s := run[n];
    var b, e := SeedStart(s.seeded), Position(s, s.shipped[0]);
    assert SnapOk(s, ShippedBase(s, 0), s.shipped[0]);
    assert s.shipped[0].links == s.known[b..e];
    CarriesExactly(s, b, e, s.prior);
    CarriesExactly(s, b, e, 0);
    if s.prior > 0 {
      CarriesExactly(s, b, e, s.prior - 1);
    }
  }

  lemma CarriesExactly(s: System, b: nat, e: nat, from: nat)
    requires s.shipped != [] && Position(s, s.shipped[0]) == e && from <= e && b <= e <= |s.known|
    requires s.shipped[0].links == s.known[b..e]
    ensures CarriesFrom(s, from) <==> b <= from
  {
    if b <= from {
      assert s.known[b..e][from - b..] == s.known[from..e];
    }
  }

  /** The connection does fail: a file of 513 records no summary of which was
      shipped, reopened and summarised at once, leaves out its first record and
      says nothing of it. */
  lemma RestartCanSkip(h: Digest) returns (found: seq<Line>, run: seq<System>, events: seq<Event>)
    ensures IsRun(h, found, run, events) && Accepted(h, found)
    ensures var s := run[|run| - 1]; s.shipped != [] && !s.shipped[0].linksTruncated && !CarriesFrom(s, s.prior)
  {
    hide CarriesFrom;
    found := LongFile(h, MAX_WINDOW_LINKS + 1);
    run, events := SummariseAtOnce(h, found);
    RestartConnects(h, found, run, events, 2);
  }

  lemma SummariseAtOnce(h: Digest, found: seq<Line>) returns (run: seq<System>, events: seq<Event>)
    requires Accepted(h, found) && found != []
    ensures IsRun(h, found, run, events) && |run| == 3
    ensures var s := run[2]; |s.shipped| == 1 && !s.shipped[0].linksTruncated && s.found == |found| && s.prior == 0
  {
    hide Start, Accepted;
    FreshWindow(h, found);
    var s := Start(h, found, 0, "", "{}", 0);
    var s1 := s.(w := WindowReset(s.w, 0), inflight := Some(SnapshotOf(s.w, 0)));
    var s2 := s1.(inflight := None, shipped := s1.shipped + [s1.inflight.value]);
    run, events := [s, s1, s2], [Tick(0), Ship];
    assert Step(h, s, Tick(0)) == s1 && Step(h, s1, Ship) == s2;
  }

  lemma FreshWindow(h: Digest, lines: seq<Line>)
    requires Accepted(h, lines) && lines != []
    ensures var s := Start(h, lines, 0, "", "{}", 0);
            !s.w.windowTruncated && s.inflight.None? && s.shipped == [] && s.found == |lines| && s.prior == 0
  {
    AllJson(h, lines);
    GoodPrefixIs(lines, |lines|);
  }

  /** There are accepted files of any length. */
  lemma {:induction false} LongFile(h: Digest, n: nat) returns (lines: seq<Line>)
    ensures |lines| == n && Accepted(h, lines)
  {
    if n == 0 {
      lines := [];
    } else {
      var before := LongFile(h, n - 1);
      var w := State(before, n - 1, if before == [] then ZERO_HASH else TailHash(h, before), 0, 0, [], false);
      AcceptedExtend(h, w, "", "", "{}");
      lines := Appended(h, w, "", "", "{}").lines;
    }
  }

  // ----- conservation -----

  /** The shipped, in-flight and live counts are what this writer appended. */
  predicate Conserved(s: System) {
    && s.found <= |s.w.lines|
    && TotalCount(s.shipped) + InflightCount(s) + s.w.windowCount == Eligible(s.w.lines[s.found..])
  }

  /** No record is counted twice or lost: what was shipped, what is in flight
      and what is still in the window add up to what this writer appended, even
      when links were truncated and whatever file it found. */
  lemma {:induction false} CountConservation(h: Digest, found: seq<Line>, run: seq<System>, events: seq<Event>, n: nat)
    requires IsRun(h, found, run, events) && n < |run|
    ensures run[n].found <= |run[n].w.lines|
    ensures TotalCount(run[n].shipped) + InflightCount(run[n]) + run[n].w.windowCount
         == Eligible(run[n].w.lines[run[n].found..])
  {
    if n == 0 {
      var now, ts, init :| run[0] == Start(h, found, now, ts, init, 0);
      OpenConserves(h, found, now, ts, init, 0);
    } else {
      CountConservation(h, found, run, events, n - 1);
      StepConserves(h, run[n - 1], events[n - 1]);
    }
  }

  lemma OpenConserves(h: Digest, lines: seq<Line>, now: int, ts: string, init: RawJson, prior: nat)
    ensures Conserved(Start(h, lines, now, ts, init, prior))
  {
    var w := Recovered(lines, now);
    assert lines[|lines|..] == [];
    EligibleExtend(lines, |lines|, NewRecord(h, w, ts, INIT_KIND, init));
  }

  lemma StepConserves(h: Digest, s: System, e: Event)
    requires Conserved(s) && Enabled(s, e)
    ensures Conserved(Step(h, s, e))
  {
    match e
    case Append(ts, kind, summary) => EligibleExtend(s.w.lines, s.found, NewRecord(h, s.w, ts, kind, summary));
    case Ship => assert Step(h, s, e).shipped[..|s.shipped|] == s.shipped;
    case Restart(now, ts, init) => OpenConserves(h, s.w.lines, now, ts, init, Reached(s));
    case _ =>
  }

  lemma EligibleExtend(lines: seq<Line>, found: nat, r: Record)
    requires found <= |lines|
    ensures Eligible((lines + [Json(r)])[found..]) == Eligible(lines[found..]) + if r.kind == INIT_KIND then 0 else 1
  {
    assert (lines + [Json(r)])[found..] == lines[found..] + [Json(r)];
    assert (lines[found..] + [Json(r)])[..|lines| - found] == lines[found..];
  }
}
