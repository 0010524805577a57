/** The records of log.chain, their canonical hash input, and what it means for
    a file to be a well-formed chain (agent/internal/selfprotect/chain.go). */
module Chain {
  import opened Collections
  import opened JsonText
  import Decimal

  /** SHA-256 in hexadecimal, left abstract: a parameter of everything below. */
  type Digest = string -> string

  datatype Record = Record(seqNo: nat, ts: string, kind: string, summary: RawJson,
                           prevHash: string, recordHash: string)

  /** One line of the file, after the JSON decoder has looked at it. */
  datatype Line = Json(rec: Record) | Malformed

  /** The predecessor hash of the first record. */
  const ZERO_HASH: string := Repeat('0', 64)

  predicate PipeFree(s: string) { '|' !in s }

  predicate IsHex64(s: string) {
    |s| == 64 && forall i :: 0 <= i < |s| ==> '0' <= s[i] <= '9' || 'a' <= s[i] <= 'f'
  }

  ghost predicate HexDigest(h: Digest) { forall x: string :: IsHex64(h(x)) }

  /** The pipe-separated string that is hashed. */
  function Canonical(r: Record): string {
    Decimal.Print(r.seqNo) + "|" + (r.ts + "|" + (r.kind + "|" + (r.summary + "|" + r.prevHash)))
  }

  function HashRecord(h: Digest, r: Record): string { h(Canonical(r)) }

  /** Line `i` carries the right number, points at its predecessor and hashes
      to what it says it hashes to. */
  predicate LinkOk(h: Digest, lines: seq<Line>, i: nat)
    requires i < |lines|
  {
    && lines[i].Json?
    && lines[i].rec.seqNo == i
    && (if i == 0 then lines[i].rec.prevHash == ZERO_HASH
        else lines[i - 1].Json? && lines[i].rec.prevHash == lines[i - 1].rec.recordHash)
    && lines[i].rec.recordHash == HashRecord(h, lines[i].rec)
  }

  predicate Accepted(h: Digest, lines: seq<Line>) {
    forall i :: 0 <= i < |lines| ==> LinkOk(h, lines, i)
  }

  function TailHash(h: Digest, lines: seq<Line>): string
    requires lines != [] && Accepted(h, lines)
  {
    assert LinkOk(h, lines, |lines| - 1);
    lines[|lines| - 1].rec.recordHash
  }

  /** No pipe in the two fields whose boundaries the canonical string leaves open. */
  predicate PipeFreeFields(lines: seq<Line>) {
    forall i :: 0 <= i < |lines| && lines[i].Json? ==>
      PipeFree(lines[i].rec.ts) && PipeFree(lines[i].rec.kind)
  }

  /** The two records hash alike although different strings were hashed. */
  predicate Collide(h: Digest, r: Record, r': Record) {
    Canonical(r) != Canonical(r') && HashRecord(h, r) == HashRecord(h, r')
  }

  /** Some record of `f` and some record of `g` exhibit a digest collision. */
  ghost predicate CollisionIn(h: Digest, f: seq<Line>, g: seq<Line>) {
    exists i, j :: 0 <= i < |f| && 0 <= j < |g| && f[i].Json? && g[j].Json? && Collide(h, f[i].rec, g[j].rec)
  }

  // ----- splitting the canonical string -----

  lemma SplitFirst(a: string, x: string, b: string, y: string)
    requires PipeFree(a) && PipeFree(b)
    requires a + "|" + x == b + "|" + y
    ensures a == b && x == y
  {
    var s := a + "|" + x;
    assert s[|a|] == '|' && s[|b|] == '|';
    assert forall i :: 0 <= i < |a| ==> s[i] == a[i] && a[i] in a;
    assert forall i :: 0 <= i < |b| ==> s[i] == b[i] && b[i] in b;
    assert a == s[..|a|] && b == s[..|b|];
    assert x == s[|a| + 1..] && y == s[|b| + 1..];
  }

  lemma LastPipe(x: string, a: string, i: nat)
    requires PipeFree(a) && i < |x + "|" + a|
    ensures i > |x| ==> (x + "|" + a)[i] != '|'
    ensures i == |x| ==> (x + "|" + a)[i] == '|'
  {
    if i > |x| {
      assert (x + "|" + a)[i] == a[i - |x| - 1];
    }
  }

  lemma SplitLast(x: string, a: string, y: string, b: string)
    requires PipeFree(a) && PipeFree(b)
    requires x + "|" + a == y + "|" + b
    ensures a == b && x == y
  {
    var s := x + "|" + a;
    LastPipe(x, a, |x|);
    LastPipe(x, a, |y|);
    LastPipe(y, b, |x|);
    LastPipe(y, b, |y|);
    assert x == s[..|x|] && y == s[..|y|];
    assert a == s[|x| + 1..] && b == s[|y| + 1..];
  }

  lemma DigitsHaveNoPipe(n: nat)
    ensures PipeFree(Decimal.Print(n))
  {
    var s := Decimal.Print(n);
    assert forall i :: 0 <= i < |s| ==> Decimal.IsDigit(s[i]);
  }

  lemma HexHasNoPipe(s: string)
    requires IsHex64(s)
    ensures PipeFree(s)
  {
  }

  lemma PrevHashPipeFree(h: Digest, lines: seq<Line>, i: nat)
    requires HexDigest(h) && i < |lines| && Accepted(h, lines)
    ensures lines[i].Json? && PipeFree(lines[i].rec.prevHash)
  {
    assert LinkOk(h, lines, i);
    if i == 0 {
      assert IsHex64(ZERO_HASH);
      HexHasNoPipe(ZERO_HASH);
    } else {
      assert LinkOk(h, lines, i - 1);
      HexHasNoPipe(h(Canonical(lines[i - 1].rec)));
    }
  }

  /** Equal hash inputs have equal numbers and equal tails after the number. */
  lemma CanonicalNumber(r: Record, r': Record)
    requires Canonical(r) == Canonical(r')
    ensures r.seqNo == r'.seqNo
    ensures r.ts + "|" + (r.kind + "|" + (r.summary + "|" + r.prevHash))
         == r'.ts + "|" + (r'.kind + "|" + (r'.summary + "|" + r'.prevHash))
  {
    DigitsHaveNoPipe(r.seqNo);
    DigitsHaveNoPipe(r'.seqNo);
    SplitFirst(Decimal.Print(r.seqNo), r.ts + "|" + (r.kind + "|" + (r.summary + "|" + r.prevHash)),
               Decimal.Print(r'.seqNo), r'.ts + "|" + (r'.kind + "|" + (r'.summary + "|" + r'.prevHash)));
    Decimal.PrintInjective(r.seqNo, r'.seqNo);
  }

  /** Equal hash inputs have equal summaries and predecessors, and equal text
      before them: a raw value shows where it begins. */
  lemma CanonicalSummary(r: Record, r': Record)
    requires Canonical(r) == Canonical(r') && PipeFree(r.prevHash) && PipeFree(r'.prevHash)
    ensures r.summary == r'.summary && r.prevHash == r'.prevHash
    ensures r.ts + "|" + r.kind == r'.ts + "|" + r'.kind
  {
    CanonicalNumber(r, r');
    var t, t' := r.ts + "|" + r.kind, r'.ts + "|" + r'.kind;
    assert r.ts + "|" + (r.kind + "|" + (r.summary + "|" + r.prevHash)) == (t + "|" + r.summary) + "|" + r.prevHash;
    assert r'.ts + "|" + (r'.kind + "|" + (r'.summary + "|" + r'.prevHash))
        == (t' + "|" + r'.summary) + "|" + r'.prevHash;
    SplitLast(t + "|" + r.summary, r.prevHash, t' + "|" + r'.summary, r'.prevHash);
    SameEnding(t, r.summary, t', r'.summary);
  }

  /** A record without separators in its own ts and kind shares its hash input
      with no other record, whatever that one's fields hold. */
  lemma CanonicalInjective(r: Record, r': Record)
    requires Canonical(r) == Canonical(r') && PipeFree(r.prevHash) && PipeFree(r'.prevHash)
    requires PipeFree(r.ts) && PipeFree(r.kind)
    ensures r.(recordHash := "") == r'.(recordHash := "")
  {
    CanonicalNumber(r, r');
    CanonicalSummary(r, r');
    OnlyPipe(r.ts, r.kind, r'.ts, r'.kind);
  }

  /** A string with exactly one pipe splits at it in one way. */
  lemma OnlyPipe(a: string, x: string, b: string, y: string)
    requires PipeFree(a) && PipeFree(x) && a + "|" + x == b + "|" + y
    ensures a == b && x == y
  {
    var t := a + "|" + x;
    assert t[|b|] == '|';
    assert forall i :: 0 <= i < |a| ==> t[i] == a[i] && t[i] in a;
    assert forall i :: |a| < i < |t| ==> t[i] == x[i - |a| - 1] && t[i] in x;
    assert |a| == |b|;
    assert a == t[..|a|] && b == t[..|a|];
    assert x == t[|a| + 1..] && y == t[|a| + 1..];
  }

  // ----- the tail hash determines the chain -----

  /** What one matching pair of records says about the pair before it. */
  lemma MatchedRecords(h: Digest, f: seq<Line>, g: seq<Line>, i: nat)
    requires HexDigest(h) && Accepted(h, f) && Accepted(h, g) && i < |f| && i < |g|
    requires PipeFreeFields(f)
    requires f[i].Json? && g[i].Json? && f[i].rec.recordHash == g[i].rec.recordHash
    requires !CollisionIn(h, f, g)
    ensures f[i] == g[i]
  {
    assert LinkOk(h, f, i) && LinkOk(h, g, i);
    var r, r' := f[i].rec, g[i].rec;
    assert !Collide(h, r, r');
    PrevHashPipeFree(h, f, i);
    PrevHashPipeFree(h, g, i);
    CanonicalInjective(r, r');
  }

  lemma {:induction false} PrefixesAgree(h: Digest, f: seq<Line>, g: seq<Line>, n: nat)
    requires HexDigest(h) && Accepted(h, f) && Accepted(h, g) && 0 < n <= |f| && n <= |g|
    requires PipeFreeFields(f)
    requires f[n - 1].Json? && g[n - 1].Json? && f[n - 1].rec.recordHash == g[n - 1].rec.recordHash
    requires !CollisionIn(h, f, g)
    ensures f[..n] == g[..n]
  {
    MatchedRecords(h, f, g, n - 1);
    if n > 1 {
      assert LinkOk(h, f, n - 1) && LinkOk(h, g, n - 1);
      PrefixesAgree(h, f, g, n - 1);
      assert f[..n] == f[..n - 1] + [f[n - 1]] && g[..n] == g[..n - 1] + [g[n - 1]];
    }
  }

  lemma SameTailSameLength(h: Digest, f: seq<Line>, g: seq<Line>)
    requires HexDigest(h) && f != [] && g != [] && Accepted(h, f) && Accepted(h, g)
    requires TailHash(h, f) == TailHash(h, g) && !CollisionIn(h, f, g)
    ensures |f| == |g|
  {
    var i, j := |f| - 1, |g| - 1;
    assert LinkOk(h, f, i) && LinkOk(h, g, j);
    assert !Collide(h, f[i].rec, g[j].rec);
    CanonicalNumber(f[i].rec, g[j].rec);
  }

  /** An accepted file without separators in its ts and kind fields is the only
      accepted file with its last hash, or a collision of the digest is at hand:
      no edit, insertion, deletion, reorder or relink keeps both acceptance and
      the tail, whatever the edited records hold. */
  lemma TailHashDeterminesChain(h: Digest, f: seq<Line>, g: seq<Line>)
    requires HexDigest(h) && f != [] && g != [] && Accepted(h, f) && Accepted(h, g)
    requires PipeFreeFields(f)
    requires TailHash(h, f) == TailHash(h, g)
    ensures f == g || CollisionIn(h, f, g)
  {
    if !CollisionIn(h, f, g) {
      SameTailSameLength(h, f, g);
      assert LinkOk(h, f, |f| - 1) && LinkOk(h, g, |g| - 1);
      PrefixesAgree(h, f, g, |f|);
      assert f[..|f|] == f && g[..|g|] == g;
    }
  }

  /** A different accepted file with the same tail, and with no digest collision
      to blame at any position. */
  ghost predicate Impostor(h: Digest, f: seq<Line>, g: seq<Line>)
    requires f != [] && Accepted(h, f)
  {
    && g != f && g != [] && Accepted(h, g) && TailHash(h, g) == TailHash(h, f)
    && SameInputs(f, g)
  }

  predicate SameInputs(f: seq<Line>, g: seq<Line>) {
    |f| == |g| &&
    forall i :: 0 <= i < |f| && f[i].Json? && g[i].Json? ==> Canonical(f[i].rec) == Canonical(g[i].rec)
  }

  /** Moving the ts/kind boundary to another pipe keeps the hash input. */
  function Reboundary(r: Record): (r': Record)
    requires !PipeFree(r.ts) || !PipeFree(r.kind)
    ensures Canonical(r') == Canonical(r) && r' != r
    ensures r'.seqNo == r.seqNo && r'.summary == r.summary && r'.prevHash == r.prevHash && r'.recordHash == r.recordHash
  {
    if !PipeFree(r.ts) then
      var k := FirstPipe(r.ts);
      var r' := r.(ts := r.ts[..k], kind := r.ts[k + 1..] + "|" + r.kind);
      assert r.ts == r.ts[..k] + "|" + r.ts[k + 1..];
      CanonicalByMiddle(r, r');
      r'
    else
      var k := FirstPipe(r.kind);
      var r' := r.(ts := r.ts + "|" + r.kind[..k], kind := r.kind[k + 1..]);
      assert r.kind == r.kind[..k] + "|" + r.kind[k + 1..];
      CanonicalByMiddle(r, r');
      r'
  }

  function FirstPipe(s: string): (k: nat)
    requires !PipeFree(s)
    ensures k < |s| && s[k] == '|'
  {
    if s[0] == '|' then 0 else 1 + FirstPipe(s[1..])
  }

  lemma CanonicalByMiddle(r: Record, r': Record)
    requires r.seqNo == r'.seqNo && r.summary == r'.summary && r.prevHash == r'.prevHash
    requires r.ts + "|" + r.kind == r'.ts + "|" + r'.kind
    ensures Canonical(r) == Canonical(r')
  {
    var rest := "|" + (r.summary + "|" + r.prevHash);
    assert r.ts + "|" + (r.kind + "|" + (r.summary + "|" + r.prevHash)) == (r.ts + "|" + r.kind) + rest;
    assert r'.ts + "|" + (r'.kind + "|" + (r'.summary + "|" + r'.prevHash)) == (r'.ts + "|" + r'.kind) + rest;
  }

  /** The pipe-free condition is exact: an accepted file is the only accepted
      file with its tail and hash inputs if and only if none of its ts and kind
      fields holds a pipe. */
  lemma PipeFreeIsExact(h: Digest, f: seq<Line>)
    requires HexDigest(h) && f != [] && Accepted(h, f)
    ensures PipeFreeFields(f) <==> !exists g :: Impostor(h, f, g)
  {
    if PipeFreeFields(f) {
      forall g | Impostor(h, f, g)
        ensures false
      {
        NoImpostor(h, f, g);
      }
    } else {
      var i :| 0 <= i < |f| && f[i].Json? && !(PipeFree(f[i].rec.ts) && PipeFree(f[i].rec.kind));
      var g := f[i := Json(Reboundary(f[i].rec))];
      forall j | 0 <= j < |g|
        ensures LinkOk(h, g, j)
      {
        assert LinkOk(h, f, j);
      }
      assert LinkOk(h, f, |f| - 1);
      assert g[i].rec != f[i].rec;
      assert Impostor(h, f, g);
    }
  }

  lemma NoImpostor(h: Digest, f: seq<Line>, g: seq<Line>)
    requires HexDigest(h) && f != [] && Accepted(h, f) && PipeFreeFields(f)
    ensures !Impostor(h, f, g)
  {
    if g != [] && Accepted(h, g) && SameInputs(f, g) {
      forall i | 0 <= i < |f|
        ensures f[i] == g[i]
      {
        assert LinkOk(h, f, i) && LinkOk(h, g, i);
        PrevHashPipeFree(h, f, i);
        PrevHashPipeFree(h, g, i);
        CanonicalInjective(f[i].rec, g[i].rec);
      }
      assert f == g;
    }
  }

  /** The format of the hash input, by example. */
  lemma CanonicalExample(r: Record)
    requires r == Record(7, "t", "k", "{}", "p", "")
    ensures Canonical(r) == "7|t|k|{}|p"
  {
    assert Decimal.Print(7) == "7";
  }
}
