/** The tokenizer of Sigma conditions (tokenizeCondition in
    pkg/ruleast/condition.go). Source characters are bytes, and the character
    classes are Unicode's for the first 256 code points. */
module CondLexer {
  import opened Wrappers
  import Decimal

  datatype Kind = KIdent | KAnd | KOr | KNot | KLparen | KRparen | KNumber | KOf | KThem
                | KPipe | KComma | KCmp | KNear

  datatype Token = Token(kind: Kind, value: string)

  datatype LexError = UnexpectedChar(c: char)

  type LexResult = Result<seq<Token>, LexError>

  predicate IsSpace(c: char) {
    '\t' <= c <= '\r' || c == ' ' || c == '\U{85}' || c == '\U{A0}'
  }

  predicate IsLetter(c: char) {
    || 'a' <= c <= 'z' || 'A' <= c <= 'Z'
    || c == '\U{AA}' || c == '\U{B5}' || c == '\U{BA}'
    || ('\U{C0}' <= c <= '\U{FF}' && c != '\U{D7}' && c != '\U{F7}')
  }

  predicate IsIdentStart(c: char) { IsLetter(c) || c == '_' }

  predicate IsIdentPart(c: char) { IsLetter(c) || Decimal.IsDigit(c) || c == '_' || c == '-' || c == '*' }

  /** Lower-casing of ASCII letters, which is all that keyword comparison sees:
      no other character lower-cases to a letter of a keyword. */
  function Lower(s: string): (r: string)
    ensures |r| == |s|
    ensures forall i :: 0 <= i < |s| ==> r[i] == (if 'A' <= s[i] <= 'Z' then s[i] + 32 as char else s[i])
  {
    seq(|s|, i requires 0 <= i < |s| => if 'A' <= s[i] <= 'Z' then s[i] + 32 as char else s[i])
  }

  function WordKind(word: string): Kind {
    var w := Lower(word);
    if w == "and" then KAnd
    else if w == "or" then KOr
    else if w == "not" then KNot
    else if w == "of" then KOf
    else if w == "them" then KThem
    else if w == "near" then KNear
    else KIdent
  }

  /** Keywords are recognised in any case, and nothing else is a keyword. */
  lemma KeywordsInAnyCase(v: string, w: string)
    requires Lower(v) == Lower(w)
    ensures WordKind(v) == WordKind(w)
    ensures WordKind(w) == KIdent <==> Lower(w) !in {"and", "or", "not", "of", "them", "near"}
  {
  }

  predicate IsWord(w: string) {
    w != [] && IsIdentStart(w[0]) && forall i :: 0 <= i < |w| ==> IsIdentPart(w[i])
  }

  /** A word the tokenizer turns into an identifier. */
  predicate IsIdentWord(w: string) { IsWord(w) && WordKind(w) == KIdent }

  predicate IsNumeral(w: string) { w != [] && Decimal.AllDigits(w) }

  /** Length of the longest prefix of digits, or of identifier characters. */
  function Span(s: string, digits: bool): (n: nat)
    ensures n <= |s|
    ensures forall i :: 0 <= i < n ==> if digits then Decimal.IsDigit(s[i]) else IsIdentPart(s[i])
    ensures n < |s| ==> if digits then !Decimal.IsDigit(s[n]) else !IsIdentPart(s[n])
  {
    if s == [] || !(if digits then Decimal.IsDigit(s[0]) else IsIdentPart(s[0])) then 0 else 1 + Span(s[1..], digits)
  }

  /** The token at the front of a text that does not start with a space. */
  function First(s: string): (r: Result<Token, LexError>)
    requires s != []
    ensures r.Ok? ==> r.value.value != [] && r.value.value <= s
  {
    var c := s[0];
    if c == '(' then Ok(Token(KLparen, s[..1]))
    else if c == ')' then Ok(Token(KRparen, s[..1]))
    else if c == '|' then Ok(Token(KPipe, s[..1]))
    else if c == ',' then Ok(Token(KComma, s[..1]))
    else if c == '>' || c == '<' then
      Ok(Token(KCmp, if |s| > 1 && s[1] == '=' then s[..2] else s[..1]))
    else if c == '=' || c == '!' then
      if |s| > 1 && s[1] == '=' then Ok(Token(KCmp, s[..2])) else Err(UnexpectedChar(c))
    else if Decimal.IsDigit(c) then Ok(Token(KNumber, s[..Span(s, true)]))
    else if IsIdentStart(c) then
      var w := s[..Span(s, false)];
      Ok(Token(WordKind(w), w))
    else Err(UnexpectedChar(c))
  }

  function Cons(ts: seq<Token>, r: LexResult): LexResult { if r.Ok? then Ok(ts + r.value) else r }

  function Lex(s: string): LexResult {
    if s == [] then Ok([])
    else if IsSpace(s[0]) then Lex(s[1..])
    else
      var t := First(s);
      if t.Err? then Err(t.error) else Cons([t.value], Lex(s[|t.value.value|..]))
  }

  method TokenizeCondition(src: string) returns (r: LexResult)
    ensures r == Lex(src)
  {
    hide Span, First;
    var out: seq<Token> := [];
    var i := 0;
    assert src[0..] == src;
    ConsNothing(Lex(src));
    while i < |src|
      invariant 0 <= i <= |src| && Lex(src) == Cons(out, Lex(src[i..]))
    {
      ghost var rest := src[i..];
      if IsSpace(src[i]) {
        assert rest[1..] == src[i + 1..];
        i := i + 1;
        continue;
      }
      var t := NextToken(src, i);
      if t.Err? {
        return Err(t.error);
      }
      var j := i + |t.value.value|;
      assert src[j..] == rest[j - i..];
      ConsCons(out, t.value, Lex(src[j..]));
      out := out + [t.value];
      i := j;
    }
    assert src[i..] == [] && out + [] == out;
    return Ok(out);
  }

  /** The loop body's branches on a character that is not a space. */
  method NextToken(src: string, i: nat) returns (t: Result<Token, LexError>)
    requires i < |src|
    ensures t == First(src[i..])
  {
    var c := src[i];
    assert c == src[i..][0];
    var j := i + 1;
    var kind := KCmp;
    if c == '(' {
      kind := KLparen;
    } else if c == ')' {
      kind := KRparen;
    } else if c == '|' {
      kind := KPipe;
    } else if c == ',' {
      kind := KComma;
    } else if c == '>' || c == '<' {
      if i + 1 < |src| && src[i + 1] == '=' {
        j := i + 2;
      }
    } else if c == '=' || c == '!' {
      if i + 1 < |src| && src[i + 1] == '=' {
        j := i + 2;
      } else {
        return Err(UnexpectedChar(c));
      }
    } else if Decimal.IsDigit(c) {
      j := Scan(src, i, true);
      kind := KNumber;
    } else if IsIdentStart(c) {
      j := Scan(src, i, false);
      kind := WordKind(src[i..j]);
    } else {
      return Err(UnexpectedChar(c));
    }
    assert src[i..j] == src[i..][..j - i];
    return Ok(Token(kind, src[i..j]));
  }

  /** The inner loops: where the run of digits or identifier characters ends. */
  method Scan(src: string, i: nat, digits: bool) returns (j: nat)
    requires i <= |src|
    ensures j == i + Span(src[i..], digits)
  {
    j := i;
    while j < |src| && (if digits then Decimal.IsDigit(src[j]) else IsIdentPart(src[j]))
      invariant i <= j <= |src| && i + Span(src[i..], digits) == j + Span(src[j..], digits)
    {
      assert src[j..][1..] == src[j + 1..];
      j := j + 1;
    }
  }

  lemma ConsNothing(r: LexResult)
    ensures Cons([], r) == r
  {
    if r.Ok? {
      assert [] + r.value == r.value;
    }
  }

  lemma ConsCons(out: seq<Token>, t: Token, r: LexResult)
    ensures Cons(out, Cons([t], r)) == Cons(out + [t], r)
  {
    if r.Ok? {
      assert out + ([t] + r.value) == (out + [t]) + r.value;
    }
  }

  /** Every identifier token is an identifier word, every number a numeral. */
  predicate WellFormed(ts: seq<Token>) {
    forall i :: 0 <= i < |ts| ==>
      && (ts[i].kind == KIdent ==> IsIdentWord(ts[i].value))
      && (ts[i].kind == KNumber ==> IsNumeral(ts[i].value))
  }

  lemma FirstWellFormed(s: string)
    requires s != [] && First(s).Ok?
    ensures WellFormed([First(s).value])
  {
    if Decimal.IsDigit(s[0]) {
      assert Span(s, true) > 0;
    } else if IsIdentStart(s[0]) {
      assert Span(s, false) > 0;
      assert s[..Span(s, false)][0] == s[0];
    }
  }

  lemma {:induction false} LexWellFormed(s: string)
    ensures Lex(s).Ok? ==> WellFormed(Lex(s).value)
    decreases |s|
  {
    if s != [] {
      if IsSpace(s[0]) {
        LexWellFormed(s[1..]);
      } else if First(s).Ok? {
        FirstWellFormed(s);
        LexWellFormed(s[|First(s).value.value|..]);
      }
    }
  }

  // ----- reading back what was written -----

  lemma SpanOf(w: string, s: string, digits: bool)
    requires forall i :: 0 <= i < |w| ==> if digits then Decimal.IsDigit(w[i]) else IsIdentPart(w[i])
    requires s == [] || if digits then !Decimal.IsDigit(s[0]) else !IsIdentPart(s[0])
    ensures Span(w + s, digits) == |w|
  {
    assert forall i :: 0 <= i < |w| ==> (w + s)[i] == w[i];
    assert s != [] ==> (w + s)[|w|] == s[0];
  }

  lemma LexWord(w: string, s: string)
    requires IsWord(w) && (s == [] || !IsIdentPart(s[0]))
    ensures Lex(w + s) == Cons([Token(WordKind(w), w)], Lex(s))
  {
    var t := w + s;
    assert t[0] == w[0];
    SpanOf(w, s, false);
    assert t[..|w|] == w && t[|w|..] == s;
  }

  lemma LexNumeral(w: string, s: string)
    requires IsNumeral(w) && (s == [] || !Decimal.IsDigit(s[0]))
    ensures Lex(w + s) == Cons([Token(KNumber, w)], Lex(s))
  {
    hide WordKind, Lower, Span;
    var t := w + s;
    assert t[0] == w[0] && Decimal.IsDigit(t[0]) && !IsSpace(t[0]);
    SpanOf(w, s, true);
    assert t[..|w|] == w && t[|w|..] == s;
    assert First(t) == Ok(Token(KNumber, w));
  }

  lemma LexSpace(s: string)
    ensures Lex(" " + s) == Lex(s)
  {
    assert (" " + s)[1..] == s;
  }

  lemma LexParen(open: bool, s: string)
    ensures Lex((if open then "(" else ")") + s)
         == Cons([if open then Token(KLparen, "(") else Token(KRparen, ")")], Lex(s))
  {
    var t := (if open then "(" else ")") + s;
    assert t[..1] == if open then "(" else ")";
    assert t[1..] == s;
  }
}
