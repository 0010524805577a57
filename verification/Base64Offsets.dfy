/** The three offset forms that `base64offset` looks for inside base64 text
    (base64Offsets in pkg/ruleast/sigma.go), over standard base64 with padding
    as in section 4 of RFC 4648, and exactly when a form is found. */
module Base64Offsets {
  import opened Collections
  import opened Words

  /** The character for a six-bit value. */
  function Letter(v: nat): (c: char)
    requires v < 64
    ensures c != '='
  {
    if v < 26 then 'A' + v as char
    else if v < 52 then 'a' + (v - 26) as char
    else if v < 62 then '0' + (v - 52) as char
    else if v == 62 then '+' else '/'
  }

  lemma LetterInjective(v: nat, w: nat)
    requires v < 64 && w < 64 && Letter(v) == Letter(w)
    ensures v == w
  {
  }

  /** Three bytes, or the zero-filled rest, as four six-bit values. */
  function Sextet(a: Byte, b: Byte, c: Byte, k: nat): (v: nat)
    requires k < 4
    ensures v < 64
  {
    if k == 0 then a / 4
    else if k == 1 then a % 4 * 16 + b / 16
    else if k == 2 then b % 16 * 4 + c / 64
    else c % 64
  }

  /** Standard encoding, three bytes at a time. */
  function Encode(s: Bytes): string {
    if s == [] then ""
    else if |s| == 1 then [Letter(Sextet(s[0], 0, 0, 0)), Letter(Sextet(s[0], 0, 0, 1)), '=', '=']
    else if |s| == 2 then
      [Letter(Sextet(s[0], s[1], 0, 0)), Letter(Sextet(s[0], s[1], 0, 1)), Letter(Sextet(s[0], s[1], 0, 2)), '=']
    else
      [Letter(Sextet(s[0], s[1], s[2], 0)), Letter(Sextet(s[0], s[1], s[2], 1)),
       Letter(Sextet(s[0], s[1], s[2], 2)), Letter(Sextet(s[0], s[1], s[2], 3))] + Encode(s[3..])
  }

  /** Without trailing padding. */
  function TrimPad(s: string): string {
    if s != [] && s[|s| - 1] == '=' then TrimPad(s[..|s| - 1]) else s
  }

  function Zeros(n: nat): (z: Bytes)
    ensures |z| == n && forall i :: 0 <= i < n ==> z[i] == 0
  {
    Repeat(0, n)
  }

  /** What remains of the encoding of `off` zero bytes and `v` after cutting
      `off * 4 / 3` leading characters and the padding. */
  function Form(v: Bytes, off: nat): string {
    var enc := TrimPad(Encode(Zeros(off) + v));
    var strip := off * 4 / 3;
    if strip < |enc| then enc[strip..] else ""
  }


  // ----- characters by position -----

  function At(s: Bytes, i: nat): Byte { if i < |s| then s[i] else 0 }

  /** Character `k` of group `g`, zero-filled past the end. */
  function SextetAt(s: Bytes, g: nat, k: nat): (v: nat)
    requires k < 4
    ensures v < 64
  {
    Sextet(At(s, 3 * g), At(s, 3 * g + 1), At(s, 3 * g + 2), k)
  }

  /** Does character `k` of group `g` carry data of `n` bytes? */
  predicate HasData(n: nat, g: nat, k: nat) { 3 * g + (if k <= 1 then 0 else k - 1) < n }

  /** How many characters carry data. */
  function DataLength(n: nat): nat { n / 3 * 4 + (if n % 3 == 0 then 0 else n % 3 + 1) }

  lemma DataIndex(n: nat, g: nat, k: nat)
    requires k < 4
    ensures 4 * g + k < DataLength(n) <==> HasData(n, g, k)
  {
  }

  lemma {:induction false} EncodeLength(s: Bytes)
    ensures |Encode(s)| == 4 * ((|s| + 2) / 3)
    decreases |s|
  {
    hide Letter, Sextet;
    if |s| >= 3 {
      EncodeLength(s[3..]);
    }
  }

  /** The encoding, character by character. */
  lemma {:induction false} EncodeAt(s: Bytes, g: nat, k: nat)
    requires k < 4 && 3 * g < |s|
    ensures 4 * g + k < |Encode(s)|
    ensures Encode(s)[4 * g + k] == if HasData(|s|, g, k) then Letter(SextetAt(s, g, k)) else '='
    decreases |s|
  {
    hide Letter, Sextet;
    EncodeLength(s);
    if g == 0 {
      FirstGroup(s, k);
    } else {
      var rest := s[3..];
      EncodeAt(rest, g - 1, k);
      assert Encode(s)[4 * g + k] == Encode(rest)[4 * (g - 1) + k];
      assert At(rest, 3 * (g - 1)) == At(s, 3 * g);
      assert At(rest, 3 * (g - 1) + 1) == At(s, 3 * g + 1);
      assert At(rest, 3 * (g - 1) + 2) == At(s, 3 * g + 2);
    }
  }

  lemma FirstGroup(s: Bytes, k: nat)
    requires k < 4 && s != []
    ensures k < |Encode(s)|
    ensures Encode(s)[k] == if HasData(|s|, 0, k) then Letter(SextetAt(s, 0, k)) else '='
  {
    assert k == 0 || k == 1 || k == 2 || k == 3;
  }

  lemma {:induction false} TrimPadIs(s: string, n: nat)
    requires n <= |s| && (n > 0 ==> s[n - 1] != '=') && forall i :: n <= i < |s| ==> s[i] == '='
    ensures TrimPad(s) == s[..n]
    decreases |s|
  {
    if n < |s| {
      TrimPadIs(s[..|s| - 1], n);
      assert s[..|s| - 1][..n] == s[..n];
    } else {
      assert s[..n] == s;
    }
  }

  /** The unpadded encoding, character by character. */
  lemma TrimmedEncoding(s: Bytes)
    ensures |TrimPad(Encode(s))| == DataLength(|s|)
    ensures forall g, k :: 0 <= g && 0 <= k < 4 && HasData(|s|, g, k) ==>
              4 * g + k < DataLength(|s|) && TrimPad(Encode(s))[4 * g + k] == Letter(SextetAt(s, g, k))
  {
    hide Encode, TrimPad, SextetAt;
    var n, enc := DataLength(|s|), Encode(s);
    EncodeLength(s);
    forall i | 0 <= i < |enc|
      ensures enc[i] == '=' <==> i >= n
    {
      EncodeAt(s, i / 4, i % 4);
      DataIndex(|s|, i / 4, i % 4);
    }
    TrimPadIs(enc, n);
    forall g, k | 0 <= g && 0 <= k < 4 && HasData(|s|, g, k)
      ensures 4 * g + k < n && enc[..n][4 * g + k] == Letter(SextetAt(s, g, k))
    {
      EncodeAt(s, g, k);
      DataIndex(|s|, g, k);
    }
  }

  lemma FormLength(v: Bytes, off: nat)
    requires off < 3
    ensures |TrimPad(Encode(Zeros(off) + v))| == DataLength(off + |v|)
    ensures off * 4 / 3 == off
    ensures v != [] ==> off + 2 <= DataLength(off + |v|) && |Form(v, off)| == DataLength(off + |v|) - off
  {
    TrimmedEncoding(Zeros(off) + v);
  }

  lemma FormAt(v: Bytes, off: nat, g: nat, k: nat)
    requires v != [] && off < 3 && k < 4 && 4 * g + k >= off && HasData(off + |v|, g, k)
    ensures 4 * g + k - off < |Form(v, off)|
    ensures Form(v, off)[4 * g + k - off] == Letter(SextetAt(Zeros(off) + v, g, k))
  {
    hide Encode, TrimPad, SextetAt;
    TrimmedEncoding(Zeros(off) + v);
    FormLength(v, off);
  }

  // ----- when a form occurs -----

  /** The bits that `p`'s last byte puts into the form's first character are zero. */
  predicate HeadClean(p: Bytes) {
    if |p| % 3 == 1 then p[|p| - 1] % 4 == 0
    else if |p| % 3 == 2 then p[|p| - 1] % 16 == 0
    else true
  }

  /** The bits that `s`'s first byte puts into the form's last character are
      zero, if there is such a byte and such a character; `n` is the number of
      bytes before `s`, counted from a multiple of three. */
  predicate TailClean(n: nat, s: Bytes) {
    if s == [] || n % 3 == 0 then true
    else if n % 3 == 1 then s[0] / 16 == 0
    else s[0] / 64 == 0
  }

  predicate OccursAt(needle: string, hay: string, i: nat) {
    i + |needle| <= |hay| && hay[i..i + |needle|] == needle
  }

  /** Bytes of the text around `v`, from the group boundary before it. */
  lemma ByteOf(p: Bytes, v: Bytes, s: Bytes, off: nat, j: nat)
    requires |p| == 3 * (|p| / 3) + off && off < 3
    ensures var q := |p| / 3;
            && (off <= j < off + |v| ==> At(p + v + s, 3 * q + j) == At(Zeros(off) + v, j))
            && (j < off ==> At(Zeros(off) + v, j) == 0)
            && (j + 1 == off ==> At(p + v + s, 3 * q + j) == p[|p| - 1])
            && (j >= off + |v| ==> At(Zeros(off) + v, j) == 0)
            && (j == off + |v| ==> At(p + v + s, 3 * q + j) == At(s, 0))
  {
  }

  ghost predicate SameChar(p: Bytes, v: Bytes, s: Bytes, g: nat, k: nat)
    requires k < 4
  {
    SextetAt(p + v + s, |p| / 3 + g, k) == SextetAt(Zeros(|p| % 3) + v, g, k)
  }

  /** The bytes that character `k` of a group is made of. */
  function UsedFrom(k: nat): nat { if k <= 1 then 0 else k - 1 }

  function UsedTo(k: nat): nat { if k == 0 then 0 else if k == 1 then 1 else 2 }

  /** A character made of `v`'s bytes alone is the same in both texts. */
  lemma InnerChar(p: Bytes, v: Bytes, s: Bytes, g: nat, k: nat)
    requires k < 4 && |p| % 3 <= 3 * g + UsedFrom(k) && 3 * g + UsedTo(k) < |p| % 3 + |v|
    ensures SameChar(p, v, s, g, k)
  {
    hide At, Zeros;
    var off, q := |p| % 3, |p| / 3;
    ByteOf(p, v, s, off, 3 * g);
    ByteOf(p, v, s, off, 3 * g + 1);
    ByteOf(p, v, s, off, 3 * g + 2);
    assert 3 * (q + g) == 3 * q + 3 * g;
  }

  lemma FirstChar(p: Bytes, v: Bytes, s: Bytes)
    requires v != [] && |p| % 3 > 0
    ensures SameChar(p, v, s, 0, |p| % 3) <==> HeadClean(p)
  {
    hide At, Zeros;
    var off := |p| % 3;
    ByteOf(p, v, s, off, 0);
    ByteOf(p, v, s, off, 1);
    ByteOf(p, v, s, off, 2);
    assert 3 * (|p| / 3 + 0) == 3 * (|p| / 3);
  }

  lemma LastChar(p: Bytes, v: Bytes, s: Bytes, g: nat, k: nat)
    requires v != [] && g == (|p| % 3 + |v|) / 3 && k == (|p| % 3 + |v|) % 3 && k > 0
    ensures SameChar(p, v, s, g, k) <==> TailClean(|p| % 3 + |v|, s)
  {
    hide At, Zeros;
    var off, q := |p| % 3, |p| / 3;
    var m := off + |v|;
    assert m == 3 * g + k;
    ByteOf(p, v, s, off, 3 * g);
    ByteOf(p, v, s, off, 3 * g + 1);
    ByteOf(p, v, s, off, 3 * g + 2);
    assert 3 * (q + g) == 3 * q + 3 * g;
    assert At(s, 0) == if s == [] then 0 else s[0] by { AtStart(s); }
  }

  lemma AtStart(s: Bytes)
    ensures At(s, 0) == if s == [] then 0 else s[0]
  {
  }

  /** Every character of the form is an inner one, the first or the last. */
  lemma CharCases(p: Bytes, v: Bytes, s: Bytes, g: nat, k: nat)
    requires v != [] && k < 4 && 4 * g + k >= |p| % 3 && HasData(|p| % 3 + |v|, g, k)
    requires HeadClean(p) && TailClean(|p| % 3 + |v|, s)
    ensures SameChar(p, v, s, g, k)
  {
    hide SameChar;
    var off, m := |p| % 3, |p| % 3 + |v|;
    if off > 0 && g == 0 && k == off {
      FirstChar(p, v, s);
    } else if m % 3 > 0 && g == m / 3 && k == m % 3 {
      LastChar(p, v, s, g, k);
    } else {
      InnerChar(p, v, s, g, k);
    }
  }

  /** Both texts show the same letter exactly when they hold the same six bits. */
  lemma LettersAgree(p: Bytes, v: Bytes, s: Bytes, g: nat, k: nat)
    requires v != [] && k < 4 && 4 * g + k >= |p| % 3 && HasData(|p| % 3 + |v|, g, k)
    ensures var off, i := |p| % 3, 4 * g + k;
            && |p| / 3 * 4 + i < |Encode(p + v + s)| && i - off < |Form(v, off)|
            && (Encode(p + v + s)[|p| / 3 * 4 + i] == Form(v, off)[i - off] <==> SameChar(p, v, s, g, k))
  {
    hide Encode, TrimPad, SextetAt, Form, Letter;
    var off, q, t := |p| % 3, |p| / 3, p + v + s;
    FormAt(v, off, g, k);
    EncodeAt(t, q + g, k);
    assert 4 * (q + g) + k == q * 4 + (4 * g + k);
    assert HasData(|t|, q + g, k);
    if Letter(SextetAt(t, q + g, k)) == Letter(SextetAt(Zeros(off) + v, g, k)) {
      LetterInjective(SextetAt(t, q + g, k), SextetAt(Zeros(off) + v, g, k));
    }
  }

  lemma OccursByCharacter(needle: string, hay: string, i: nat)
    requires i + |needle| <= |hay|
    ensures OccursAt(needle, hay, i) <==> forall j :: 0 <= j < |needle| ==> hay[i + j] == needle[j]
  {
    var cut := hay[i..i + |needle|];
    assert forall j :: 0 <= j < |needle| ==> cut[j] == hay[i + j];
  }

  /** The form's own characters show that its neighbours left no bits in it. */
  lemma EndsClean(p: Bytes, v: Bytes, s: Bytes)
    requires v != []
    requires var off, form, hay := |p| % 3, Form(v, |p| % 3), Encode(p + v + s);
             && |p| / 3 * 4 + off + |form| <= |hay|
             && forall j :: 0 <= j < |form| ==> hay[|p| / 3 * 4 + off + j] == form[j]
    ensures HeadClean(p) && TailClean(|p| % 3 + |v|, s)
  {
    hide Encode, TrimPad, Form, HeadClean, TailClean, SameChar;
    var off, base, m := |p| % 3, |p| / 3 * 4, |p| % 3 + |v|;
    if off > 0 {
      LettersAgree(p, v, s, 0, off);
      assert Encode(p + v + s)[base + off + 0] == Form(v, off)[0];
      FirstChar(p, v, s);
    } else {
      CleanAtBoundary(p);
    }
    if m % 3 > 0 {
      LettersAgree(p, v, s, m / 3, m % 3);
      var j := 4 * (m / 3) + m % 3 - off;
      assert Encode(p + v + s)[base + off + j] == Form(v, off)[j];
      LastChar(p, v, s, m / 3, m % 3);
    } else {
      FullGroupTail(m, s);
    }
  }

  /** The offset form for the alignment of `p` occurs in the encoding of
      `p + v + s` right where `v` begins if and only if the bits that neighbours
      of `v` share with the form's first and last character are all zero. */
  lemma FormOccursExactly(p: Bytes, v: Bytes, s: Bytes)
    requires v != []
    ensures var off := |p| % 3;
            OccursAt(Form(v, off), Encode(p + v + s), |p| / 3 * 4 + off)
            <==> HeadClean(p) && TailClean(off + |v|, s)
  {
    hide Encode, TrimPad, Form, OccursAt, HeadClean, TailClean, SameChar;
    var off, base, m := |p| % 3, |p| / 3 * 4, |p| % 3 + |v|;
    var hay, form := Encode(p + v + s), Form(v, off);
    FormLength(v, off);
    LastIndex(p, v, s);
    OccursByCharacter(form, hay, base + off);
    if OccursAt(form, hay, base + off) {
      EndsClean(p, v, s);
    }
    if HeadClean(p) && TailClean(m, s) {
      forall j | 0 <= j < |form|
        ensures hay[base + off + j] == form[j]
      {
        var g, k := (off + j) / 4, (off + j) % 4;
        DataIndex(m, g, k);
        LettersAgree(p, v, s, g, k);
        CharCases(p, v, s, g, k);
      }
    }
  }

  lemma LastIndex(p: Bytes, v: Bytes, s: Bytes)
    requires v != []
    ensures |p| / 3 * 4 + DataLength(|p| % 3 + |v|) <= |Encode(p + v + s)|
  {
    hide Encode;
    EncodeLength(p + v + s);
  }

  lemma CleanAtBoundary(p: Bytes)
    requires |p| % 3 == 0
    ensures HeadClean(p)
  {
  }

  lemma FullGroupTail(m: nat, s: Bytes)
    requires m % 3 == 0
    ensures TailClean(m, s)
  {
  }

  /** The three forms, in offset order; the empty value yields the two leftover
      characters of its padding bytes. */
  method Base64Offsets(v: Bytes) returns (out: seq<string>)
    ensures v != [] ==> out == [Form(v, 0), Form(v, 1), Form(v, 2)]
    ensures v == [] ==> out == ["A", "A"]
  {
    hide TrimPad, Encode;
    out := [];
    var off := 0;
    while off < 3
      invariant 0 <= off <= 3
      invariant v != [] ==> |out| == off && forall i :: 0 <= i < off ==> out[i] == Form(v, i)
      invariant v == [] ==> |out| == (if off == 0 then 0 else off - 1) && forall i :: 0 <= i < |out| ==> out[i] == "A"
    {
      var buf := [];
      for i := 0 to off
        invariant buf == Zeros(i)
      {
        buf := buf + [0];
      }
      buf := buf + v;
      var enc := Encode(buf);
      var strip := off * 4 / 3;
      enc := TrimPad(enc);
      FormLength(v, off);
      if v == [] {
        EmptyForm(off);
      }
      if strip < |enc| {
        out := out + [enc[strip..]];
      }
      off := off + 1;
    }
  }

  lemma EmptyForm(off: nat)
    requires off < 3
    ensures |TrimPad(Encode(Zeros(off) + []))| == if off == 0 then 0 else off + 1
    ensures off > 0 ==> TrimPad(Encode(Zeros(off) + []))[off..] == "A"
  {
    hide Encode, TrimPad;
    TrimmedEncoding(Zeros(off) + []);
    assert off > 0 ==> HasData(off, 0, off);
  }

  /** The four characters of a group carry the 24 bits of its three bytes, the
      first byte's first. */
  lemma GroupValue(a: Byte, b: Byte, c: Byte)
    ensures ((Sextet(a, b, c, 0) * 64 + Sextet(a, b, c, 1)) * 64 + Sextet(a, b, c, 2)) * 64 + Sextet(a, b, c, 3)
         == (a * 256 + b) * 256 + c
  {
  }

  /** Examples from section 10 of RFC 4648, and the last two letters. */
  lemma Vectors()
    ensures Encode([102]) == "Zg==" && Encode([102, 111]) == "Zm8=" && Encode([102, 111, 111]) == "Zm9v"
    ensures Encode([251, 255]) == "+/8="
  {
    assert [102, 111, 111][3..] == [];
  }
}
