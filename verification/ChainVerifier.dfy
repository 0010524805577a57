/** The verify-logs walk over a chain file (verifyReader in
    agent/internal/selfprotect/chain.go). */
module ChainVerifier {
  import opened Wrappers
  import opened Chain

  datatype Reason = MalformedJson | BadSeq | BadPrevHash | BadRecordHash

  datatype Break = Break(seqNo: nat, reason: Reason)

  /** A record the since-filter leaves uncounted: it carries a readable time, and
      that lies before `since`. */
  predicate Skipped(parse: string -> Option<int>, since: Option<int>, r: Record) {
    since.Some? && parse(r.ts).Some? && parse(r.ts).value < since.value
  }

  function CountShown(parse: string -> Option<int>, since: Option<int>, lines: seq<Line>): nat {
    if lines == [] then 0
    else
      CountShown(parse, since, lines[..|lines| - 1]) +
      (if lines[|lines| - 1].Json? && !Skipped(parse, since, lines[|lines| - 1].rec) then 1 else 0)
  }

  /** The positions before `at` whose record has no readable time, or one not
      before `since`. */
  function Shown(parse: string -> Option<int>, since: Option<int>, lines: seq<Line>, at: nat): set<nat>
    requires at <= |lines|
  {
    set i: nat | i < at && lines[i].Json?
      && (since.None? || parse(lines[i].rec.ts).None? || parse(lines[i].rec.ts).value >= since.value)
  }

  lemma {:induction false} CountIsSize(parse: string -> Option<int>, since: Option<int>, lines: seq<Line>, at: nat)
    requires at <= |lines|
    ensures CountShown(parse, since, lines[..at]) == |Shown(parse, since, lines, at)|
  {
    if at > 0 {
      CountIsSize(parse, since, lines, at - 1);
      assert lines[..at][..at - 1] == lines[..at - 1];
      var before, shown := Shown(parse, since, lines, at - 1), Shown(parse, since, lines, at);
      assert shown == if at - 1 in shown then before + {at - 1} else before;
    }
  }

  predicate NamesPredecessor(lines: seq<Line>, i: nat)
    requires i < |lines| && lines[i].Json?
  {
    if i == 0 then lines[i].rec.prevHash == ZERO_HASH
    else lines[i - 1].Json? && lines[i].rec.prevHash == lines[i - 1].rec.recordHash
  }

  /** Accepts exactly the well-formed chains whatever `since` is. Otherwise it
      reports the first line that is not properly linked and the first rule that
      line breaks: it does not decode, its number is not its position, it does not
      name its predecessor's hash, or its own hash is wrong. */
  method VerifyReader(h: Digest, parse: string -> Option<int>, lines: seq<Line>, since: Option<int>)
    returns (walked: nat, err: Option<Break>, ghost at: nat)
    ensures err.None? <==> Accepted(h, lines)
    ensures at <= |lines| && walked == |Shown(parse, since, lines, at)|
    ensures forall i :: 0 <= i < at ==> LinkOk(h, lines, i)
    ensures err.None? ==> at == |lines|
    ensures err.Some? ==> at < |lines| && !LinkOk(h, lines, at)
    ensures err.Some? && lines[at].Malformed? ==> err.value == Break(at, MalformedJson)
    ensures err.Some? && lines[at].Json? && lines[at].rec.seqNo != at ==>
              err.value == Break(lines[at].rec.seqNo, BadSeq)
    ensures err.Some? && lines[at].Json? && lines[at].rec.seqNo == at && !NamesPredecessor(lines, at) ==>
              err.value == Break(at, BadPrevHash)
    ensures err.Some? && lines[at].Json? && lines[at].rec.seqNo == at && NamesPredecessor(lines, at) ==>
              err.value == Break(at, BadRecordHash) && lines[at].rec.recordHash != h(Canonical(lines[at].rec))
  {
    walked := 0;
    var expectSeq, prevHash, i := 0, ZERO_HASH, 0;
    while i < |lines|
      invariant 0 <= i <= |lines| && expectSeq == i
      invariant forall j :: 0 <= j < i ==> LinkOk(h, lines, j)
      invariant i == 0 ==> prevHash == ZERO_HASH
      invariant i > 0 ==> lines[i - 1].Json? && prevHash == lines[i - 1].rec.recordHash
      invariant walked == CountShown(parse, since, lines[..i])
    {
      at := i;
      CountIsSize(parse, since, lines, i);
      if lines[i].Malformed? {
        assert !LinkOk(h, lines, i);
        return walked, Some(Break(expectSeq, MalformedJson)), at;
      }
      var rec := lines[i].rec;
      if rec.seqNo != expectSeq {
        assert !LinkOk(h, lines, i);
        return walked, Some(Break(rec.seqNo, BadSeq)), at;
      }
      if rec.prevHash != prevHash {
        assert !LinkOk(h, lines, i);
        return walked, Some(Break(rec.seqNo, BadPrevHash)), at;
      }
      var want := HashRecord(h, rec);
      if rec.recordHash != want {
        assert !LinkOk(h, lines, i);
        return walked, Some(Break(rec.seqNo, BadRecordHash)), at;
      }
      assert LinkOk(h, lines, i);
      assert lines[..i + 1][..i] == lines[..i];
      i := i + 1;
      if since.Some? {
        var ts := parse(rec.ts);
        if ts.Some? && ts.value < since.value {
          expectSeq, prevHash := expectSeq + 1, rec.recordHash;
          continue;
        }
      }
      walked, expectSeq, prevHash := walked + 1, expectSeq + 1, rec.recordHash;
    }
    at := |lines|;
    CountIsSize(parse, since, lines, at);
    err := None;
  }
}
