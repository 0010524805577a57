/** Varint-length-prefixed framing between agent and extensions (writeFrame,
    readFrame and readUvarint in pkg/extsdk/codec.go), with the varints of
    Protocol Buffers ("Base 128 Varints"). Payloads stand for marshalled
    messages. */
module Framing {
  import opened Wrappers
  import opened Words

  const MAX_MESSAGE_SIZE: nat := 16 * 1024 * 1024
  const MAX_VARINT_LEN: nat := 10

  /** `EndOfStream` is the reader's own end-of-file error, handed on as it is;
      the others carry a text of their own. */
  datatype ReadError = EndOfStream | Truncated | Overflow | TooLong | FrameTooLarge | NoPayload | ShortPayload

  /** What an error is or wraps: io.EOF, io.ErrUnexpectedEOF, or neither. */
  datatype Cause = Eof | UnexpectedEof | NoEnd

  function CauseOf(e: ReadError): Cause {
    match e
    case EndOfStream => Eof
    case Truncated => Eof
    case NoPayload => Eof
    case ShortPayload => UnexpectedEof
    case _ => NoEnd
  }

  /** The test callers make for a clean shutdown: errors.Is(err, io.EOF). */
  predicate IsEof(e: ReadError) { CauseOf(e) == Eof }

  function Pow128(k: nat): (p: nat)
    ensures p > 0
  {
    if k == 0 then 1 else 128 * Pow128(k - 1)
  }

  /** binary.PutUvarint. */
  function Varint(n: nat): (bs: Bytes)
    ensures bs != []
  {
    if n < 128 then [n] else [n % 128 + 128] + Varint(n / 128)
  }

  /** Little-endian base 128, ignoring continuation bits. */
  function Base128(bs: Bytes): nat {
    if bs == [] then 0 else bs[0] % 128 + 128 * Base128(bs[1..])
  }

  /** Index of the first byte without a continuation bit. */
  function Terminator(bs: Bytes): (j: nat)
    ensures j <= |bs| && (j < |bs| ==> bs[j] < 128) && forall i :: 0 <= i < j ==> bs[i] >= 128
  {
    if bs == [] || bs[0] < 128 then 0 else 1 + Terminator(bs[1..])
  }

  /** The value and length of the varint at the front of a stream. */
  function Uvarint(bs: Bytes): (r: Result<(nat, nat), ReadError>)
    ensures r.Ok? ==> 0 < r.value.1 <= |bs|
  {
    var j := Terminator(bs);
    if j < |bs| && j < MAX_VARINT_LEN then
      if j == MAX_VARINT_LEN - 1 && bs[j] > 1 then Err(Overflow) else Ok((Base128(bs[..j + 1]), j + 1))
    else if |bs| >= MAX_VARINT_LEN then Err(TooLong)
    else if bs == [] then Err(EndOfStream)
    else Err(Truncated)
  }

  /** The payload at the front of a stream and the length of its frame. */
  function Frame(bs: Bytes): (r: Result<(Bytes, nat), ReadError>)
    ensures r.Ok? ==> 0 < r.value.1 <= |bs|
  {
    var u := Uvarint(bs);
    if u.Err? then Err(u.error)
    else
      var (length, used) := u.value;
      if length > MAX_MESSAGE_SIZE then Err(FrameTooLarge)
      else if |bs| - used < length then Err(if |bs| == used then NoPayload else ShortPayload)
      else Ok((bs[used..used + length], used + length))
  }

  /** What is left of the stream after an attempt at a varint, good or bad. */
  function AfterUvarint(bs: Bytes): Bytes {
    var j := Terminator(bs) + 1;
    if j <= |bs| && j <= MAX_VARINT_LEN then bs[j..]
    else if |bs| >= MAX_VARINT_LEN then bs[MAX_VARINT_LEN..]
    else []
  }

  /** What is left of the stream after an attempt at a frame, good or bad. */
  function AfterFrame(bs: Bytes): Bytes {
    var f := Frame(bs);
    if f.Ok? then bs[f.value.1..] else if f.error in {NoPayload, ShortPayload} then [] else AfterUvarint(bs)
  }

  function Framed(payload: Bytes): Bytes { Varint(|payload|) + payload }

  function Stream(payloads: seq<Bytes>): Bytes {
    if payloads == [] then [] else Framed(payloads[0]) + Stream(payloads[1..])
  }

  /** Reads frames until the first error. */
  function ReadAll(bs: Bytes): (seq<Bytes>, ReadError)
    decreases |bs|
  {
    var f := Frame(bs);
    if f.Err? then ([], f.error)
    else
      var rest := ReadAll(bs[f.value.1..]);
      ([f.value.0] + rest.0, rest.1)
  }

  // ----- reader and writer -----

  class Connection {
    var input: Bytes
    var output: Bytes

    constructor (received: Bytes)
      ensures input == received && output == []
    {
      input, output := received, [];
    }

    method WriteFrame(payload: Bytes) returns (ok: bool)
      modifies `output
      ensures ok == (|payload| <= MAX_MESSAGE_SIZE)
      ensures output == if ok then old(output) + Framed(payload) else old(output)
    {
      if |payload| > MAX_MESSAGE_SIZE {
        return false;
      }
      var prefix := PutUvarint(|payload|);
      output := output + prefix;
      output := output + payload;
      assert output == old(output) + (prefix + payload);
      return true;
    }

    static method PutUvarint(n: nat) returns (buf: Bytes)
      ensures buf == Varint(n)
    {
      buf := [];
      var x := n;
      assert buf + Varint(x) == Varint(n);
      while x >= 128
        invariant buf + Varint(x) == Varint(n)
      {
        assert buf + ([x % 128 + 128] + Varint(x / 128)) == buf + [x % 128 + 128] + Varint(x / 128);
        buf := buf + [x % 128 + 128];
        x := x / 128;
      }
      buf := buf + [x];
    }

    /** One byte at a time. The bits already in `x` lie below the shift, so the
        source's bitwise or is the addition here. */
    method ReadUvarint() returns (r: Result<nat, ReadError>)
      modifies `input
      ensures r.Ok? <==> Uvarint(old(input)).Ok?
      ensures r.Ok? ==> r.value == Uvarint(old(input)).value.0
      ensures r.Err? ==> r.error == Uvarint(old(input)).error
      ensures input == AfterUvarint(old(input))
    {
      hide Base128, Pow128, Uvarint, AfterUvarint;
      var x: nat, weight: nat, i: nat := 0, 1, 0;
      ghost var all := input;
      EmptyNumeral();
      assert all[0..] == all;
      while i < MAX_VARINT_LEN
        invariant 0 <= i <= MAX_VARINT_LEN && i <= |all| && input == all[i..]
        invariant forall k :: 0 <= k < i ==> all[k] >= 128
        invariant x == Base128(all[..i]) && weight == Pow128(i) && x < weight
      {
        if |input| == 0 {
          EndsEarly(all, i);
          return Err(if i == 0 then EndOfStream else Truncated);
        }
        var b: int := input[0];
        assert b == all[i] && input[1..] == all[i + 1..] && all[..i + 1] == all[..i] + [b];
        Base128Push(all[..i], b);
        NextDigit(x, b % 128, weight, i);
        input := input[1..];
        if b < 128 {
          StopsAt(all, i);
          if i == MAX_VARINT_LEN - 1 && b > 1 {
            return Err(Overflow);
          }
          return Ok(x + b * weight);
        }
        x := x + b % 128 * weight;
        weight := weight * 128;
        i := i + 1;
      }
      NeverStops(all);
      return Err(TooLong);
    }

    method ReadFrame() returns (r: Result<Bytes, ReadError>)
      modifies `input
      ensures r.Ok? <==> Frame(old(input)).Ok?
      ensures r.Ok? ==> r.value == Frame(old(input)).value.0
      ensures r.Err? ==> r.error == Frame(old(input)).error
      ensures input == AfterFrame(old(input))
    {
      hide Base128, Terminator;
      ghost var all := input;
      var length := ReadUvarint();
      if length.Err? {
        return Err(length.error);
      }
      if length.value > MAX_MESSAGE_SIZE {
        return Err(FrameTooLarge);
      }
      if |input| < length.value {
        var none := |input| == 0;
        input := [];
        return Err(if none then NoPayload else ShortPayload);
      }
      var buf := input[..length.value];
      ghost var used := Uvarint(all).value.1;
      assert buf == all[used..used + length.value];
      input := input[length.value..];
      assert input == all[used + length.value..];
      return Ok(buf);
    }
  }

  // ----- varints -----

  lemma EmptyNumeral()
    ensures Base128([]) == 0 && Pow128(0) == 1
  {
  }

  /** A digit above the weight leaves the number below the next weight. */
  lemma NextDigit(x: nat, d: nat, weight: nat, i: nat)
    requires weight == Pow128(i) && x < weight && d < 128
    ensures weight * 128 == Pow128(i + 1) && x + d * weight < weight * 128
  {
    assert d * weight <= 127 * weight;
  }

  lemma TerminatorIs(bs: Bytes, j: nat)
    requires j < |bs| && bs[j] < 128 && forall k :: 0 <= k < j ==> bs[k] >= 128
    ensures Terminator(bs) == j
  {
  }

  lemma TerminatorAfter(bs: Bytes, j: nat)
    requires j <= |bs| && forall k :: 0 <= k < j ==> bs[k] >= 128
    ensures Terminator(bs) >= j
  {
  }

  /** The three ways a varint can go: no end yet, an end, or none within ten. */
  lemma EndsEarly(bs: Bytes, i: nat)
    requires i == |bs| < MAX_VARINT_LEN && forall k :: 0 <= k < i ==> bs[k] >= 128
    ensures Uvarint(bs) == Err(if i == 0 then EndOfStream else Truncated) && AfterUvarint(bs) == []
  {
    hide Base128;
    TerminatorAfter(bs, i);
  }

  lemma StopsAt(bs: Bytes, i: nat)
    requires i < |bs| && i < MAX_VARINT_LEN && bs[i] < 128 && forall k :: 0 <= k < i ==> bs[k] >= 128
    ensures Uvarint(bs)
         == if i == MAX_VARINT_LEN - 1 && bs[i] > 1 then Err(Overflow) else Ok((Base128(bs[..i + 1]), i + 1))
    ensures AfterUvarint(bs) == bs[i + 1..]
  {
    hide Base128;
    TerminatorIs(bs, i);
  }

  lemma NeverStops(bs: Bytes)
    requires |bs| >= MAX_VARINT_LEN && forall k :: 0 <= k < MAX_VARINT_LEN ==> bs[k] >= 128
    ensures Uvarint(bs) == Err(TooLong) && AfterUvarint(bs) == bs[MAX_VARINT_LEN..]
  {
    hide Base128;
    TerminatorAfter(bs, MAX_VARINT_LEN);
  }

  lemma {:induction false} Base128Push(bs: Bytes, b: Byte)
    ensures Base128(bs + [b]) == Base128(bs) + b % 128 * Pow128(|bs|)
  {
    if bs == [] {
      assert bs + [b] == [b];
    } else {
      Base128Push(bs[1..], b);
      assert (bs + [b])[0] == bs[0] && (bs + [b])[1..] == bs[1..] + [b];
      var x, p := b % 128, Pow128(|bs| - 1);
      assert 128 * (x * p) == x * (128 * p);
    }
  }

  lemma {:induction false} Base128Bound(bs: Bytes)
    ensures Base128(bs) < Pow128(|bs|)
  {
    if bs != [] {
      Base128Bound(bs[1..]);
    }
  }

  lemma PowersTo9()
    ensures Pow128(9) == 0x8000_0000_0000_0000
  {
    assert Pow128(3) == 128 * 128 * 128;
    assert Pow128(6) == 128 * 128 * 128 * Pow128(3);
    assert Pow128(9) == 128 * 128 * 128 * Pow128(6);
  }

  lemma {:induction false} PowersGrow(j: nat, k: nat)
    requires j <= k
    ensures Pow128(j) <= Pow128(k)
  {
    if j < k {
      PowersGrow(j, k - 1);
    }
  }

  /** Whatever is accepted is an exact base-128 value below 2^64, in at most ten
      bytes of which only the last lacks the continuation bit. */
  lemma UvarintExact(bs: Bytes)
    requires Uvarint(bs).Ok?
    ensures var (value, used) := Uvarint(bs).value;
            && used <= MAX_VARINT_LEN && value == Base128(bs[..used]) && value < TWO_64
            && bs[used - 1] < 128 && forall i :: 0 <= i < used - 1 ==> bs[i] >= 128
  {
    var j := Terminator(bs);
    PowersTo9();
    if j < 9 {
      Base128Bound(bs[..j + 1]);
      PowersGrow(j + 1, 9);
    } else {
      assert bs[..10] == bs[..9] + [bs[9]];
      Base128Push(bs[..9], bs[9]);
      Base128Bound(bs[..9]);
    }
  }

  /** A varint's shape: continuation bits on all bytes but the last. */
  lemma {:induction false} VarintShape(n: nat)
    ensures var bs := Varint(n);
            && bs[|bs| - 1] < 128 && (forall i :: 0 <= i < |bs| - 1 ==> bs[i] >= 128)
            && Base128(bs) == n
  {
    if n >= 128 {
      VarintShape(n / 128);
      assert Varint(n)[1..] == Varint(n / 128);
    } else {
      assert Varint(n)[1..] == [];
    }
  }

  /** Numbers below 2^64 take at most ten bytes, the tenth at most one. */
  lemma {:induction false} VarintLength(n: nat, k: nat)
    requires n < 2 * Pow128(k)
    ensures |Varint(n)| <= k + 1 && (|Varint(n)| == k + 1 ==> Varint(n)[k] <= 1)
  {
    if n >= 128 {
      if k > 0 {
        VarintLength(n / 128, k - 1);
      }
    }
  }

  lemma TerminatorOf(w: Bytes, rest: Bytes)
    requires w != [] && w[|w| - 1] < 128 && forall i :: 0 <= i < |w| - 1 ==> w[i] >= 128
    ensures Terminator(w + rest) == |w| - 1
  {
    var all := w + rest;
    assert all[|w| - 1] == w[|w| - 1] && forall i :: 0 <= i < |w| - 1 ==> all[i] == w[i];
  }

  lemma UvarintOfVarint(n: nat, rest: Bytes)
    requires n < TWO_64
    ensures Uvarint(Varint(n) + rest) == Ok((n, |Varint(n)|))
  {
    var w := Varint(n);
    PowersTo9();
    VarintShape(n);
    VarintLength(n, 9);
    TerminatorOf(w, rest);
    assert (w + rest)[..|w|] == w && (w + rest)[|w| - 1] == w[|w| - 1];
  }

  lemma UvarintOfCut(n: nat, c: nat)
    requires n < TWO_64 && c < |Varint(n)|
    ensures Uvarint(Varint(n)[..c]) == Err(if c == 0 then EndOfStream else Truncated)
  {
    PowersTo9();
    VarintShape(n);
    VarintLength(n, 9);
    var bs := Varint(n)[..c];
    assert forall i :: 0 <= i < |bs| ==> bs[i] >= 128;
  }

  /** Which length prefixes are refused: ten bytes without an end, or a tenth
      byte above 1, which would not fit 64 bits. */
  lemma UvarintRefuses(bs: Bytes)
    ensures Uvarint(bs) == Err(TooLong) <==> |bs| >= 10 && forall i :: 0 <= i < 10 ==> bs[i] >= 128
    ensures Uvarint(bs) == Err(Overflow) <==> |bs| >= 10 && (forall i :: 0 <= i < 9 ==> bs[i] >= 128) && 1 < bs[9] < 128
  {
    hide Base128;
  }

  // ----- frames and streams -----

  /** A frame that announces more than 16 MiB is refused before its payload. */
  lemma OversizeRefused(n: nat, rest: Bytes)
    requires 16 * 1024 * 1024 < n < TWO_64
    ensures Frame(Varint(n) + rest) == Err(FrameTooLarge) && AfterFrame(Varint(n) + rest) == rest
  {
    hide Uvarint, Varint, AfterUvarint;
    UvarintOfVarint(n, rest);
    AfterVarint(n, rest);
  }

  lemma AfterVarint(n: nat, rest: Bytes)
    requires n < TWO_64
    ensures AfterUvarint(Varint(n) + rest) == rest
  {
    hide Varint;
    PowersTo9();
    VarintShape(n);
    VarintLength(n, 9);
    TerminatorOf(Varint(n), rest);
    assert (Varint(n) + rest)[|Varint(n)|..] == rest;
  }

  lemma FrameOfFramed(payload: Bytes, rest: Bytes)
    requires |payload| <= MAX_MESSAGE_SIZE
    ensures Frame(Framed(payload) + rest) == Ok((payload, |Framed(payload)|))
    ensures (Framed(payload) + rest)[|Framed(payload)|..] == rest
  {
    hide Uvarint, Varint;
    var w := Varint(|payload|);
    UvarintOfVarint(|payload|, payload + rest);
    assert Framed(payload) + rest == w + (payload + rest);
    assert (w + (payload + rest))[|w|..|w| + |payload|] == payload;
  }

  /** The error for a frame of which only the first `n` bytes arrived. */
  function CutError(payload: Bytes, n: nat): ReadError {
    var prefix := |Varint(|payload|)|;
    if n == 0 then EndOfStream else if n < prefix then Truncated else if n == prefix then NoPayload else ShortPayload
  }

  /** A frame cut anywhere inside gives an error, never a payload. */
  lemma FrameOfCut(payload: Bytes, c: nat)
    requires |payload| <= MAX_MESSAGE_SIZE && c < |Framed(payload)|
    ensures Frame(Framed(payload)[..c]) == Err(CutError(payload, c))
  {
    hide Uvarint, Varint;
    var w := Varint(|payload|);
    if c < |w| {
      UvarintOfCut(|payload|, c);
      assert Framed(payload)[..c] == w[..c];
    } else {
      UvarintOfVarint(|payload|, payload[..c - |w|]);
      assert Framed(payload)[..c] == w + payload[..c - |w|];
    }
  }

  predicate Sendable(payloads: seq<Bytes>) { forall p :: p in payloads ==> |p| <= MAX_MESSAGE_SIZE }

  /** How many whole frames lie within the first `c` bytes of the stream. */
  function WholeFrames(payloads: seq<Bytes>, c: nat): (k: nat)
    ensures k <= |payloads|
  {
    if payloads == [] || c < |Framed(payloads[0])| then 0
    else 1 + WholeFrames(payloads[1..], c - |Framed(payloads[0])|)
  }

  /** Reading the stream cut after `c` bytes yields exactly the whole frames
      before the cut, in order, and then the error that the piece behind them
      gives. */
  predicate ReadsWholeFrames(payloads: seq<Bytes>, c: nat)
    requires c <= |Stream(payloads)|
  {
    var (got, err) := ReadAll(Stream(payloads)[..c]);
    var k := WholeFrames(payloads, c);
    && got == payloads[..k]
    && |Stream(payloads[..k])| <= c
    && (k < |payloads| ==> c < |Stream(payloads[..k + 1])|)
    && err == if k == |payloads| then EndOfStream else CutError(payloads[k], c - |Stream(payloads[..k])|)
  }

  lemma {:induction false} CutStream(payloads: seq<Bytes>, c: nat)
    requires Sendable(payloads) && c <= |Stream(payloads)|
    ensures ReadsWholeFrames(payloads, c)
    decreases |payloads|
  {
    hide Frame, Framed, ReadsWholeFrames;
    if payloads == [] {
      NothingToRead();
    } else if c < |Framed(payloads[0])| {
      assert payloads[0] in payloads;
      CutInFirst(payloads, c);
    } else {
      assert payloads[0] in payloads && Sendable(payloads[1..]);
      StreamSplit(payloads, c);
      CutStream(payloads[1..], c - |Framed(payloads[0])|);
      assert payloads == [payloads[0]] + payloads[1..];
      CutLater(payloads[0], payloads[1..], c);
    }
  }

  lemma CutInFirst(payloads: seq<Bytes>, c: nat)
    requires payloads != [] && |payloads[0]| <= MAX_MESSAGE_SIZE && c < |Framed(payloads[0])| && c <= |Stream(payloads)|
    ensures ReadsWholeFrames(payloads, c)
  {
    hide Stream, ReadAll, WholeFrames, Framed, CutError;
    CutFirst(payloads, c);
  }

  lemma CutLater(p: Bytes, rest: seq<Bytes>, c: nat)
    requires |p| <= MAX_MESSAGE_SIZE && |Framed(p)| <= c && c - |Framed(p)| <= |Stream(rest)|
    requires c <= |Stream([p] + rest)| && ReadsWholeFrames(rest, c - |Framed(p)|)
    ensures ReadsWholeFrames([p] + rest, c)
  {
    hide Stream, ReadAll, WholeFrames, Framed, CutError;
    var n := |Framed(p)|;
    assert ([p] + rest)[1..] == rest;
    StreamSplit([p] + rest, c);
    ReadOneMore(p, Stream(rest)[..c - n]);
    var k := WholeFrames(rest, c - n);
    ConsStream(p, rest, k);
    if k < |rest| {
      ConsStream(p, rest, k + 1);
    }
  }

  lemma StreamSplit(payloads: seq<Bytes>, c: nat)
    requires payloads != [] && |Framed(payloads[0])| <= c <= |Stream(payloads)|
    ensures var n := |Framed(payloads[0])|;
            && c - n <= |Stream(payloads[1..])|
            && Stream(payloads)[..c] == Framed(payloads[0]) + Stream(payloads[1..])[..c - n]
            && WholeFrames(payloads, c) == 1 + WholeFrames(payloads[1..], c - n)
  {
    hide Framed;
  }

  lemma CutFirst(payloads: seq<Bytes>, c: nat)
    requires payloads != [] && |payloads[0]| <= MAX_MESSAGE_SIZE && c < |Framed(payloads[0])|
    ensures c <= |Stream(payloads)| && WholeFrames(payloads, c) == 0
    ensures ReadAll(Stream(payloads)[..c]) == ([], CutError(payloads[0], c))
    ensures Stream(payloads[..0]) == [] && c < |Stream(payloads[..1])|
  {
    hide Frame, Framed, CutError;
    var p := payloads[0];
    FrameOfCut(p, c);
    assert Stream(payloads)[..c] == Framed(p)[..c];
    assert payloads[..0] == [] && payloads[..1] == [p];
    OneFrame(p);
  }

  lemma NothingToRead()
    ensures ReadAll([]) == ([], EndOfStream)
    ensures ReadsWholeFrames([], 0)
  {
    assert Stream([])[..0] == [];
  }

  lemma ReadOneMore(p: Bytes, bs: Bytes)
    requires |p| <= MAX_MESSAGE_SIZE
    ensures ReadAll(Framed(p) + bs) == ([p] + ReadAll(bs).0, ReadAll(bs).1)
  {
    hide Frame, Framed;
    FrameOfFramed(p, bs);
  }

  lemma OneFrame(p: Bytes)
    ensures Stream([p]) == Framed(p)
  {
    assert [p][1..] == [];
    assert Framed(p) + [] == Framed(p);
  }

  lemma ConsStream(p: Bytes, rest: seq<Bytes>, k: nat)
    requires k <= |rest|
    ensures ([p] + rest)[..k + 1] == [p] + rest[..k]
    ensures Stream(([p] + rest)[..k + 1]) == Framed(p) + Stream(rest[..k])
  {
    assert ([p] + rest)[..k + 1] == [p] + rest[..k];
    assert ([p] + rest[..k])[1..] == rest[..k];
  }

  lemma {:induction false} WholeStream(payloads: seq<Bytes>)
    ensures WholeFrames(payloads, |Stream(payloads)|) == |payloads|
    decreases |payloads|
  {
    if payloads != [] {
      WholeStream(payloads[1..]);
    }
  }

  /** The bytes behind the last whole frame before the cut. */
  function Remainder(payloads: seq<Bytes>, c: nat): nat
    requires |Stream(payloads[..WholeFrames(payloads, c)])| <= c
  {
    c - |Stream(payloads[..WholeFrames(payloads, c)])|
  }

  /** The cut leaves part of a length prefix, or a prefix without any of the
      payload it announces. */
  predicate CutInPrefix(payloads: seq<Bytes>, c: nat)
    requires |Stream(payloads[..WholeFrames(payloads, c)])| <= c
  {
    var k := WholeFrames(payloads, c);
    k < |payloads| && 0 < Remainder(payloads, c) <= |Varint(|payloads[k]|)|
  }

  /** The callers' end-of-file test on a cut stream: it fails if and only if some
      but not all payload bytes of a frame arrived, so it tells a cut between
      frames from one inside a frame if and only if the cut is not in a prefix. */
  lemma EofTestExact(payloads: seq<Bytes>, c: nat)
    requires Sendable(payloads) && c <= |Stream(payloads)|
    ensures var k := WholeFrames(payloads, c);
            var err := ReadAll(Stream(payloads)[..c]).1;
            && |Stream(payloads[..k])| <= c
            && (!IsEof(err) <==> k < |payloads| && |Varint(|payloads[k]|)| < Remainder(payloads, c))
            && ((IsEof(err) <==> Remainder(payloads, c) == 0) <==> !CutInPrefix(payloads, c))
            && (err == EndOfStream <==> Remainder(payloads, c) == 0)
  {
    hide Stream, ReadAll, WholeFrames, Varint;
    CutStream(payloads, c);
    assert payloads[..|payloads|] == payloads;
  }

  /** Two connections lost inside a frame that pass the end-of-file test: after
      the first of two prefix bytes, and right behind the prefix. */
  lemma EofExamples()
    ensures Frame([200]) == Err(Truncated) && Frame([1]) == Err(NoPayload)
    ensures IsEof(Truncated) && IsEof(NoPayload)
    ensures Varint(200)[..1] == [200] && Framed([7])[..1] == [1]
  {
    assert Terminator([200]) == 1;
    assert Base128([1][..1]) == 1;
  }

  /** Reading back the frames of any sendable payloads gives those payloads, in
      order, with nothing left over. */
  lemma StreamRoundTrip(payloads: seq<Bytes>)
    requires Sendable(payloads)
    ensures ReadAll(Stream(payloads)) == (payloads, EndOfStream)
  {
    hide Stream, ReadAll, WholeFrames;
    var c := |Stream(payloads)|;
    WholeStream(payloads);
    CutStream(payloads, c);
    assert Stream(payloads)[..c] == Stream(payloads) && payloads[..|payloads|] == payloads;
  }
}
