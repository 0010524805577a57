/** The chain writer and its bounded link-witness window (ChainWriter in
    agent/internal/selfprotect/chain.go). `State` is the writer's value and the
    functions below say what each operation makes of it; class `ChainWriter`
    does the same work in place. */
module ChainWriter {
  import opened Collections
  import opened JsonText
  import opened Chain

  const MAX_WINDOW_LINKS: nat := 512
  const INIT_KIND: string := "chain.init"

  /** The zero time, which no summary window starts at. */
  const ZERO_TIME: int := 0

  datatype Link = Link(seqNo: nat, kind: string, prevHash: string, recordHash: string)

  datatype Snapshot = Snapshot(lastSeq: nat, lastHash: string, count: nat, since: int, observedAt: int,
                               links: seq<Link>, linksTruncated: bool)

  /** `lines` is the file; the writer only ever appends to it. */
  datatype State = State(lines: seq<Line>, seqNo: nat, prevHash: string,
                         windowCount: nat, windowSince: int,
                         windowLinks: seq<Link>, windowTruncated: bool)

  /** What the caller hands to Append: nothing, marshalled JSON, or a value the
      marshaller rejects. */
  datatype Summary = NoSummary | JsonValue(text: RawJson) | NotMarshallable

  function LinkOf(r: Record): Link { Link(r.seqNo, r.kind, r.prevHash, r.recordHash) }

  /** The links of the leading well-formed lines. */
  function LinksOf(lines: seq<Line>): (links: seq<Link>)
    requires forall i :: 0 <= i < |lines| ==> lines[i].Json?
    ensures |links| == |lines|
    ensures forall i :: 0 <= i < |links| ==> links[i] == LinkOf(lines[i].rec)
  {
    seq(|lines|, i requires 0 <= i < |lines| => LinkOf(lines[i].rec))
  }

  /** The most recent `MAX_WINDOW_LINKS` of `s`. */
  function LastLinks<T>(s: seq<T>): (r: seq<T>)
    ensures |r| <= MAX_WINDOW_LINKS
    ensures |s| <= MAX_WINDOW_LINKS ==> r == s
    ensures |s| >= MAX_WINDOW_LINKS ==> |r| == MAX_WINDOW_LINKS
  {
    if |s| <= MAX_WINDOW_LINKS then s else s[|s| - MAX_WINDOW_LINKS..]
  }

  function WithLinks(w: State, links: seq<Link>): State {
    w.(windowLinks := LastLinks(links), windowTruncated := w.windowTruncated || |links| > MAX_WINDOW_LINKS)
  }

  function NewRecord(h: Digest, w: State, ts: string, kind: string, summary: RawJson): (r: Record)
    ensures r.recordHash == HashRecord(h, r)
  {
    var r := Record(w.seqNo, ts, kind, summary, w.prevHash, "");
    assert Canonical(r) == Canonical(r.(recordHash := HashRecord(h, r)));
    r.(recordHash := HashRecord(h, r))
  }

  function Appended(h: Digest, w: State, ts: string, kind: string, summary: RawJson): State {
    var r := NewRecord(h, w, ts, kind, summary);
    var w' := w.(lines := w.lines + [Json(r)], prevHash := r.recordHash, seqNo := w.seqNo + 1,
                 windowCount := if kind == INIT_KIND then w.windowCount else w.windowCount + 1);
    WithLinks(w', w.windowLinks + [LinkOf(r)])
  }

  function SnapshotOf(w: State, now: int): Snapshot {
    Snapshot(if w.seqNo > 0 then w.seqNo - 1 else 0, w.prevHash, w.windowCount, w.windowSince, now,
             w.windowLinks, w.windowTruncated)
  }

  function WindowReset(w: State, now: int): State {
    w.(windowCount := 0, windowSince := now, windowLinks := [], windowTruncated := false)
  }

  function WindowReturned(w: State, snap: Snapshot): State {
    if snap.links == [] && snap.count == 0 then w
    else
      var w' := w.(windowCount := w.windowCount + snap.count,
                   windowSince := if snap.since != ZERO_TIME && snap.since < w.windowSince then snap.since
                                  else w.windowSince,
                   windowTruncated := w.windowTruncated || snap.linksTruncated);
      if snap.links == [] then w' else WithLinks(w', snap.links + w.windowLinks)
  }

  /** How many leading lines decode. */
  function GoodPrefix(lines: seq<Line>): (k: nat)
    ensures k <= |lines| && (forall i :: 0 <= i < k ==> lines[i].Json?)
    ensures k < |lines| ==> lines[k].Malformed?
  {
    if lines == [] || lines[0].Malformed? then 0 else 1 + GoodPrefix(lines[1..])
  }

  /** State after scanning an existing file: continue after its last good
      record, with the window re-seeded from disk and unflagged. */
  function Recovered(lines: seq<Line>, now: int): State {
    var k := GoodPrefix(lines);
    State(lines,
          if k == 0 then 0 else lines[k - 1].rec.seqNo + 1,
          if k == 0 then ZERO_HASH else lines[k - 1].rec.recordHash,
          0, now, LastLinks(LinksOf(lines[..k])), false)
  }

  function Opened(h: Digest, lines: seq<Line>, now: int, ts: string, init: RawJson): State {
    var w := Recovered(lines, now);
    if w.seqNo == 0 then Appended(h, w, ts, INIT_KIND, init) else w
  }

  lemma GoodPrefixIs(lines: seq<Line>, k: nat)
    requires k <= |lines| && (forall i :: 0 <= i < k ==> lines[i].Json?)
    requires k < |lines| ==> lines[k].Malformed?
    ensures GoodPrefix(lines) == k
  {
  }

  lemma NothingSeeded(lines: seq<Line>)
    ensures LastLinks(LinksOf(lines[..0])) == []
  {
  }

  /** Capping link by link is capping once. */
  lemma ReseedStep(lines: seq<Line>, i: nat)
    requires i < |lines| && forall j :: 0 <= j <= i ==> lines[j].Json?
    ensures LastLinks(LastLinks(LinksOf(lines[..i])) + [LinkOf(lines[i].rec)]) == LastLinks(LinksOf(lines[..i + 1]))
  {
    LinksOfNext(lines, i);
    LastOfLast(LinksOf(lines[..i]), LinkOf(lines[i].rec));
  }

  lemma LinksOfNext(lines: seq<Line>, i: nat)
    requires i < |lines| && forall j :: 0 <= j <= i ==> lines[j].Json?
    ensures LinksOf(lines[..i + 1]) == LinksOf(lines[..i]) + [LinkOf(lines[i].rec)]
  {
  }

  lemma LastOfLast<T>(s: seq<T>, x: T)
    ensures LastLinks(LastLinks(s) + [x]) == LastLinks(s + [x])
  {
  }

  class ChainWriter {
    const hash: Digest
    var file: seq<Line>
    var open: bool
    var seqNo: nat
    var prevHash: string
    var windowCount: nat
    var windowSince: int
    var windowLinks: seq<Link>
    var windowTruncated: bool

    ghost function View(): State
      reads this
    {
      State(file, seqNo, prevHash, windowCount, windowSince, windowLinks, windowTruncated)
    }

    /** OpenChain on a file holding `lines`; tampered files still open. */
    constructor (h: Digest, lines: seq<Line>, now: int, ts: string, init: RawJson)
      ensures hash == h && open && View() == Opened(h, lines, now, ts, init)
    {
      hash, file, open := h, lines, true;
      seqNo, prevHash, windowCount, windowSince := 0, ZERO_HASH, 0, now;
      windowLinks, windowTruncated := [], false;
      new;
      if |file| > 0 {
        Recover();
      } else {
        assert LinksOf(lines[..0]) == [];
      }
      if seqNo == 0 {
        AppendRecord(ts, INIT_KIND, init);
      }
    }

    /** Reads the file back up to its first malformed line. */
    method Recover()
      requires View() == State(file, 0, ZERO_HASH, 0, windowSince, [], false)
      modifies this
      ensures open == old(open)
      ensures View() == Recovered(old(file), old(windowSince))
    {
      hide LinksOf, LastLinks, GoodPrefix;
      var i := 0;
      NothingSeeded(file);
      while i < |file| && file[i].Json?
        invariant 0 <= i <= |file| && file == old(file) && open == old(open)
        invariant windowCount == 0 && windowSince == old(windowSince)
        invariant forall j :: 0 <= j < i ==> file[j].Json?
        invariant seqNo == if i == 0 then 0 else file[i - 1].rec.seqNo + 1
        invariant prevHash == if i == 0 then ZERO_HASH else file[i - 1].rec.recordHash
        invariant windowLinks == LastLinks(LinksOf(file[..i]))
      {
        var rec := file[i].rec;
        seqNo, prevHash := rec.seqNo + 1, rec.recordHash;
        ReseedStep(file, i);
        PushLink(Link(rec.seqNo, rec.kind, rec.prevHash, rec.recordHash));
        i := i + 1;
      }
      GoodPrefixIs(file, i);
      windowTruncated := false;
    }

    /** Append: nothing happens on a closed chain, and a summary that cannot be
        marshalled leaves everything as it was. */
    method Append(ts: string, kind: string, summary: Summary) returns (ok: bool)
      modifies this
      ensures open == old(open)
      ensures ok == (!open || !summary.NotMarshallable?)
      ensures View() == if !open || summary.NotMarshallable? then old(View())
                        else Appended(hash, old(View()), ts, kind,
                                      if summary.NoSummary? then "{}" else summary.text)
      ensures !open || summary.NotMarshallable? ==> file == old(file)
      ensures open && !summary.NotMarshallable? ==>
                && |file| == |old(file)| + 1 && old(file) <= file && Last(file).Json?
                && Last(file).rec.seqNo == old(seqNo) && Last(file).rec.prevHash == old(prevHash)
                && Last(file).rec.ts == ts && Last(file).rec.kind == kind
                && Last(file).rec.summary == if summary.NoSummary? then "{}" else summary.text
    {
      if !open {
        return true;
      }
      match summary
      case NotMarshallable => ok := false;
      case NoSummary => AppendRecord(ts, kind, "{}"); ok := true;
      case JsonValue(text) => AppendRecord(ts, kind, text); ok := true;
    }

    method AppendRecord(ts: string, kind: string, summary: RawJson)
      modifies this
      ensures open == old(open)
      ensures View() == Appended(hash, old(View()), ts, kind, summary)
      ensures |file| == |old(file)| + 1 && old(file) <= file && Last(file).Json?
      ensures var rec := Last(file).rec;
              && rec.seqNo == old(seqNo) && rec.ts == ts && rec.kind == kind && rec.summary == summary
              && rec.prevHash == old(prevHash) && rec.recordHash == hash(Canonical(rec))
              && seqNo == rec.seqNo + 1 && prevHash == rec.recordHash
    {
      var rec := Record(seqNo, ts, kind, summary, prevHash, "");
      rec := rec.(recordHash := HashRecord(hash, rec));
      file := file + [Json(rec)];
      prevHash := rec.recordHash;
      seqNo := seqNo + 1;
      if kind != INIT_KIND {
        windowCount := windowCount + 1;
      }
      PushLink(Link(rec.seqNo, rec.kind, rec.prevHash, rec.recordHash));
    }

    method PushLink(l: Link)
      modifies `windowLinks, `windowTruncated
      ensures View() == WithLinks(old(View()), old(windowLinks) + [l])
    {
      windowLinks := windowLinks + [l];
      CapWindowLinks();
    }

    method CapWindowLinks()
      modifies `windowLinks, `windowTruncated
      ensures View() == WithLinks(old(View()), old(windowLinks))
    {
      if |windowLinks| <= MAX_WINDOW_LINKS {
        return;
      }
      var drop := |windowLinks| - MAX_WINDOW_LINKS;
      windowLinks := windowLinks[drop..];
      windowTruncated := true;
    }

    method SnapshotAndReset(now: int) returns (snap: Snapshot)
      modifies this
      ensures open == old(open)
      ensures snap == SnapshotOf(old(View()), now) && View() == WindowReset(old(View()), now)
    {
      var lastSeq := 0;
      if seqNo > 0 {
        lastSeq := seqNo - 1;
      }
      snap := Snapshot(lastSeq, prevHash, windowCount, windowSince, now, windowLinks, windowTruncated);
      windowCount, windowSince := 0, now;
      windowLinks, windowTruncated := [], false;
    }

    method ReturnWindow(snap: Snapshot)
      modifies this
      ensures open == old(open)
      ensures View() == WindowReturned(old(View()), snap)
    {
      if |snap.links| == 0 && snap.count == 0 {
        return;
      }
      windowCount := windowCount + snap.count;
      if snap.since != ZERO_TIME && snap.since < windowSince {
        windowSince := snap.since;
      }
      if snap.linksTruncated {
        windowTruncated := true;
      }
      if |snap.links| > 0 {
        windowLinks := snap.links + windowLinks;
        CapWindowLinks();
      }
    }

    method Close()
      modifies `open
      ensures !open
    {
      open := false;
    }
  }
}
