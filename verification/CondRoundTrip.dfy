/** Parser and printer undo each other: whatever near-free expression the
    condition parser produced, printing it and parsing the print over the same
    selections gives the same tree back. A printed temporal join never does. */
module CondRoundTrip {
  import opened Wrappers
  import opened RuleAst
  import opened CondLexer
  import opened CondParser
  import Decimal

  predicate CountOk(c: Count) { c.AtLeast? ==> 1 <= c.n <= MAX_INT }

  predicate TargetOk(t: Target) { t.Named? ==> IsIdentWord(t.name) }

  ghost predicate BuiltFrom(sels: Selections, e: Expr, c: Count, t: Target) {
    CountOk(c) && TargetOk(t) && Quantify(sels, c, t) == Ok(e)
  }

  /** The near-free expressions the parser can produce. */
  ghost predicate Producible(sels: Selections, e: Expr) {
    match e
    case Sel(name, sel) => IsIdentWord(name) && name in sels && sels[name] == sel
    case And(l, r) => Producible(sels, l) && Producible(sels, r)
    case Or(l, r) => Producible(sels, l) && Producible(sels, r)
    case Not(x) => Producible(sels, x)
    case Near(_, _, _) => false
    case Quantifier(_, _, _) => exists c, t :: BuiltFrom(sels, e, c, t)
  }

  // ----- what the parser produces -----

  lemma {:induction false} QuantifierProduces(sels: Selections, toks: seq<Token>, c: Count, pos: nat)
    requires WellFormed(toks) && CountOk(c) && QuantifierAt(sels, toks, c, pos).Ok?
    ensures Producible(sels, QuantifierAt(sels, toks, c, pos).value.0)
  {
    var t := if toks[pos + 1].kind == KThem then Them else Named(toks[pos + 1].value);
    assert BuiltFrom(sels, QuantifierAt(sels, toks, c, pos).value.0, c, t);
  }

  lemma {:induction false} PrimaryProduces(sels: Selections, toks: seq<Token>, pos: nat)
    requires WellFormed(toks) && PrimaryAt(sels, toks, pos).Ok?
    ensures Producible(sels, PrimaryAt(sels, toks, pos).value.0)
    decreases |toks| - pos, 0
  {
    var t := toks[pos];
    if t.kind == KLparen {
      OrProduces(sels, toks, pos + 1);
    } else if t.kind == KNumber {
      QuantifierProduces(sels, toks, AtLeast(Decimal.Value(t.value)), pos + 1);
    } else {
      var w := Lower(t.value);
      if (w == "all" || w == "any") && KindAt(toks, pos + 1) == Some(KOf) {
        QuantifierProduces(sels, toks, if w == "all" then All else AtLeast(1), pos + 1);
      }
    }
  }

  lemma {:induction false} NotProduces(sels: Selections, toks: seq<Token>, pos: nat)
    requires WellFormed(toks) && NotAt(sels, toks, pos).Ok?
    ensures Producible(sels, NotAt(sels, toks, pos).value.0)
    decreases |toks| - pos, 1
  {
    if KindAt(toks, pos) == Some(KNot) {
      NotProduces(sels, toks, pos + 1);
    } else {
      PrimaryProduces(sels, toks, pos);
    }
  }

  lemma {:induction false} AndTailProduces(sels: Selections, toks: seq<Token>, left: Expr, pos: nat)
    requires pos <= |toks| && WellFormed(toks) && AndTail(sels, toks, left, pos).Ok? && Producible(sels, left)
    ensures Producible(sels, AndTail(sels, toks, left, pos).value.0)
    decreases |toks| - pos, 0
  {
    if KindAt(toks, pos) == Some(KAnd) {
      NotProduces(sels, toks, pos + 1);
      var r := NotAt(sels, toks, pos + 1).value;
      AndTailProduces(sels, toks, And(left, r.0), r.1);
    }
  }

  lemma {:induction false} AndProduces(sels: Selections, toks: seq<Token>, pos: nat)
    requires WellFormed(toks) && AndAt(sels, toks, pos).Ok?
    ensures Producible(sels, AndAt(sels, toks, pos).value.0)
    decreases |toks| - pos, 2
  {
    NotProduces(sels, toks, pos);
    var l := NotAt(sels, toks, pos).value;
    AndTailProduces(sels, toks, l.0, l.1);
  }

  lemma {:induction false} OrTailProduces(sels: Selections, toks: seq<Token>, left: Expr, pos: nat)
    requires pos <= |toks| && WellFormed(toks) && OrTail(sels, toks, left, pos).Ok? && Producible(sels, left)
    ensures Producible(sels, OrTail(sels, toks, left, pos).value.0)
    decreases |toks| - pos, 0
  {
    if KindAt(toks, pos) == Some(KOr) {
      AndProduces(sels, toks, pos + 1);
      var r := AndAt(sels, toks, pos + 1).value;
      OrTailProduces(sels, toks, Or(left, r.0), r.1);
    }
  }

  lemma {:induction false} OrProduces(sels: Selections, toks: seq<Token>, pos: nat)
    requires WellFormed(toks) && OrAt(sels, toks, pos).Ok?
    ensures Producible(sels, OrAt(sels, toks, pos).value.0)
    decreases |toks| - pos, 3
  {
    AndProduces(sels, toks, pos);
    var l := AndAt(sels, toks, pos).value;
    OrTailProduces(sels, toks, l.0, l.1);
  }

  lemma ParserProduces(sels: Selections, src: string)
    requires Parse(sels, src).Ok? && !Parse(sels, src).value.0.Near?
    ensures Producible(sels, Parse(sels, src).value.0)
  {
    LexWellFormed(src);
    OrProduces(sels, Lex(src).value, 0);
  }

  // ----- the tokens of a printed expression -----

  const LP := Token(KLparen, "(")
  const RP := Token(KRparen, ")")

  function CountToken(c: Count): Token {
    if c.All? then Token(KIdent, "all") else Token(KNumber, Decimal.Print(c.n))
  }

  function TargetToken(t: Target): Token {
    if t.Them? then Token(KThem, "them") else Token(KIdent, t.name)
  }

  function QuantifierTokens(c: Count, t: Target): seq<Token> {
    [CountToken(c), Token(KOf, "of"), TargetToken(t)]
  }

  ghost function Tokens(sels: Selections, e: Expr): (ts: seq<Token>)
    requires Producible(sels, e)
    ensures ts != []
  {
    match e
    case Sel(name, _) => [Token(KIdent, name)]
    case And(l, r) => [LP] + Tokens(sels, l) + [Token(KAnd, "and")] + Tokens(sels, r) + [RP]
    case Or(l, r) => [LP] + Tokens(sels, l) + [Token(KOr, "or")] + Tokens(sels, r) + [RP]
    case Not(x) => [LP, Token(KNot, "not")] + Tokens(sels, x) + [RP]
    case Quantifier(_, _, _) =>
      var c, t :| BuiltFrom(sels, e, c, t);
      QuantifierTokens(c, t)
  }

  /** Number of nodes, the measure of the inductions below. */
  function Size(e: Expr): nat {
    match e
    case And(l, r) => 1 + Size(l) + Size(r)
    case Or(l, r) => 1 + Size(l) + Size(r)
    case Not(x) => 1 + Size(x)
    case _ => 1
  }

  predicate Delimited(s: string) { s == [] || !IsIdentPart(s[0]) }

  lemma Connectives()
    ensures IsWord("and") && IsWord("or") && IsWord("not")
    ensures WordKind("and") == KAnd && WordKind("or") == KOr && WordKind("not") == KNot
  {
    assert Lower("and") == "and";
    assert Lower("or") == "or";
    assert Lower("not") == "not";
  }

  lemma QuantifierWords()
    ensures IsWord("of") && IsWord("them") && IsWord("all")
    ensures WordKind("of") == KOf && WordKind("them") == KThem && WordKind("all") == KIdent
    ensures Lower("all") == "all"
  {
    assert Lower("of") == "of";
    assert Lower("them") == "them";
    assert Lower("all") == "all";
  }

  lemma KeywordWords()
    ensures IsWord("and") && IsWord("or") && IsWord("not") && IsWord("of") && IsWord("them") && IsWord("all")
    ensures WordKind("and") == KAnd && WordKind("or") == KOr && WordKind("not") == KNot
    ensures WordKind("of") == KOf && WordKind("them") == KThem && WordKind("all") == KIdent
    ensures Lower("all") == "all"
  {
    hide IsWord, WordKind, Lower;
    Connectives();
    QuantifierWords();
  }

  lemma NumeralOf(n: nat)
    ensures IsNumeral(Decimal.Print(n)) && Decimal.Value(Decimal.Print(n)) == n
  {
    Decimal.ValueOfPrint(n);
    assert forall i :: 0 <= i < |Decimal.Print(n)| ==> Decimal.IsDigit(Decimal.Print(n)[i]);
  }

  lemma ConsAppend(a: seq<Token>, b: seq<Token>, r: LexResult)
    ensures Cons(a, Cons(b, r)) == Cons(a + b, r)
  {
    if r.Ok? {
      assert a + (b + r.value) == (a + b) + r.value;
    }
  }

  /** Infix and prefix keywords with the spaces around them. */
  lemma LexKeyword(w: string, s: string)
    requires IsWord(w)
    ensures Lex(" " + (w + (" " + s))) == Cons([Token(WordKind(w), w)], Lex(s))
  {
    LexSpace(w + (" " + s));
    LexWord(w, " " + s);
    LexSpace(s);
  }

  lemma QuantifierText(c: string, t: string, s: string)
    ensures c + (" of " + t) + s == c + (" " + ("of" + (" " + (t + s))))
  {
    assert " of " == " " + "of" + " ";
  }

  lemma LexCount(c: Count, s: string)
    requires CountOk(c) && s != [] && s[0] == ' '
    ensures Lex(CountText(c) + s) == Cons([CountToken(c)], Lex(s))
  {
    hide Lex, IsWord, WordKind, Lower, IsNumeral, Cons;
    if c.All? {
      KeywordWords();
      LexWord("all", s);
    } else {
      NumeralOf(c.n);
      LexNumeral(Decimal.Print(c.n), s);
    }
  }

  lemma LexTarget(t: Target, s: string)
    requires TargetOk(t) && Delimited(s)
    ensures Lex(TargetText(t) + s) == Cons([TargetToken(t)], Lex(s))
  {
    hide Lex;
    KeywordWords();
    LexWord(TargetText(t), s);
  }

  lemma LexQuantifier(c: Count, t: Target, s: string)
    requires CountOk(c) && TargetOk(t) && Delimited(s)
    ensures Lex(Label(c, t) + s) == Cons(QuantifierTokens(c, t), Lex(s))
  {
    hide Lex, CountText, TargetText, WordKind, IsWord, CountToken, TargetToken, Cons;
    KeywordWords();
    var target := TargetText(t) + s;
    QuantifierText(CountText(c), TargetText(t), s);
    LexCount(c, " " + ("of" + (" " + target)));
    LexKeyword("of", target);
    LexTarget(t, s);
    ConsAppend([Token(KOf, "of")], [TargetToken(t)], Lex(s));
    ConsAppend([CountToken(c)], [Token(KOf, "of")] + [TargetToken(t)], Lex(s));
    assert [CountToken(c)] + ([Token(KOf, "of")] + [TargetToken(t)]) == QuantifierTokens(c, t);
  }

  /** The print of an expression lexes to its tokens, whatever follows. */
  lemma {:induction false} LexPrint(sels: Selections, e: Expr, s: string)
    requires Producible(sels, e) && Delimited(s)
    ensures Lex(Print(e) + s) == Cons(Tokens(sels, e), Lex(s))
    decreases Size(e), 0
  {
    hide Lex, Cons, WordKind, IsWord, IsIdentWord, BuiltFrom, QuantifierTokens;
    match e
    case Sel(name, _) => IdentWordKind(name); LexWord(name, s);
    case And(l, r) =>
      KeywordWords();
      assert " " + "and" + " " == " and ";
      LexInfix(sels, l, "and", r, s);
    case Or(l, r) =>
      KeywordWords();
      assert " " + "or" + " " == " or ";
      LexInfix(sels, l, "or", r, s);
    case Not(x) => LexPrefix(sels, x, s);
    case Quantifier(_, _, _) =>
      var c, t :| BuiltFrom(sels, e, c, t) && Tokens(sels, e) == QuantifierTokens(c, t);
      LexBuilt(sels, e, c, t, s);
  }

  lemma LexBuilt(sels: Selections, e: Expr, c: Count, t: Target, s: string)
    requires BuiltFrom(sels, e, c, t) && Delimited(s)
    ensures Lex(Print(e) + s) == Cons(QuantifierTokens(c, t), Lex(s))
  {
    hide Lex, Cons, BuiltFrom, Label, QuantifierTokens;
    BuiltLabel(sels, e, c, t);
    LexQuantifier(c, t, s);
  }

  lemma BuiltLabel(sels: Selections, e: Expr, c: Count, t: Target)
    requires BuiltFrom(sels, e, c, t)
    ensures CountOk(c) && TargetOk(t) && Print(e) == Label(c, t)
  {
    hide Names, Resolve, Label, CountOk, TargetOk;
  }

  lemma IdentWordKind(w: string)
    requires IsIdentWord(w)
    ensures IsWord(w) && WordKind(w) == KIdent
  {
  }

  lemma InfixText(a: string, w: string, b: string, s: string)
    ensures "(" + (a + (" " + w + " " + (b + ")"))) + s == "(" + (a + (" " + (w + (" " + (b + (")" + s))))))
  {
  }

  lemma {:induction false} LexInfix(sels: Selections, l: Expr, w: string, r: Expr, s: string)
    requires Producible(sels, l) && Producible(sels, r) && IsWord(w)
    ensures Lex("(" + (Print(l) + (" " + w + " " + (Print(r) + ")"))) + s)
         == Cons([LP] + Tokens(sels, l) + [Token(WordKind(w), w)] + Tokens(sels, r) + [RP], Lex(s))
    decreases Size(l) + Size(r), 1
  {
    hide Lex, Cons, WordKind, IsWord, Producible, Tokens, Print;
    var right := Print(r) + (")" + s);
    var mid := " " + (w + (" " + right));
    InfixText(Print(l), w, Print(r), s);
    LexParen(true, Print(l) + mid);
    LexPrint(sels, l, mid);
    LexKeyword(w, right);
    LexPrint(sels, r, ")" + s);
    LexParen(false, s);
    var tl, tr, tw := Tokens(sels, l), Tokens(sels, r), [Token(WordKind(w), w)];
    ConsAppend(tr, [RP], Lex(s));
    ConsAppend(tw, tr + [RP], Lex(s));
    ConsAppend(tl, tw + (tr + [RP]), Lex(s));
    ConsAppend([LP], tl + (tw + (tr + [RP])), Lex(s));
    assert [LP] + (tl + (tw + (tr + [RP]))) == [LP] + tl + tw + tr + [RP];
  }

  lemma PrefixText(a: string, s: string)
    ensures "(not " + (a + ")") + s == "(" + ("not" + (" " + (a + (")" + s))))
  {
    assert "(not " == "(" + "not" + " ";
  }

  lemma {:induction false} LexPrefix(sels: Selections, x: Expr, s: string)
    requires Producible(sels, x)
    ensures Lex("(not " + (Print(x) + ")") + s) == Cons([LP, Token(KNot, "not")] + Tokens(sels, x) + [RP], Lex(s))
    decreases Size(x), 1
  {
    hide Lex, Cons, WordKind, IsWord, Producible, Tokens, Print;
    KeywordWords();
    var inner := Print(x) + (")" + s);
    PrefixText(Print(x), s);
    LexParen(true, "not" + (" " + inner));
    LexWord("not", " " + inner);
    LexSpace(inner);
    LexPrint(sels, x, ")" + s);
    LexParen(false, s);
    var tx, no := Tokens(sels, x), [Token(KNot, "not")];
    ConsAppend(tx, [RP], Lex(s));
    ConsAppend(no, tx + [RP], Lex(s));
    ConsAppend([LP], no + (tx + [RP]), Lex(s));
    assert [LP] + (no + (tx + [RP])) == [LP, Token(KNot, "not")] + tx + [RP];
  }

  // ----- parsing those tokens back -----

  /** `ts` stands at position `pos`. */
  predicate Stands(toks: seq<Token>, pos: nat, ts: seq<Token>) {
    pos + |ts| <= |toks| && forall i :: 0 <= i < |ts| ==> toks[pos + i] == ts[i]
  }

  lemma StandsPart(toks: seq<Token>, pos: nat, ts: seq<Token>, a: nat, b: nat)
    requires Stands(toks, pos, ts) && a <= b <= |ts|
    ensures Stands(toks, pos + a, ts[a..b])
  {
    forall i | 0 <= i < b - a
      ensures toks[pos + a + i] == ts[a..b][i]
    {
      assert toks[pos + (a + i)] == ts[a + i];
    }
  }

  lemma QuantifierParses(sels: Selections, e: Expr, c: Count, t: Target, toks: seq<Token>, pos: nat)
    requires BuiltFrom(sels, e, c, t) && Stands(toks, pos, QuantifierTokens(c, t))
    ensures PrimaryAt(sels, toks, pos) == Ok((e, pos + 3))
  {
    hide Decimal.Print, Decimal.Value, Quantify, WordKind, IsWord, OrAt;
    KeywordWords();
    var q := QuantifierTokens(c, t);
    assert toks[pos + 0] == q[0] && toks[pos + 1] == q[1] && toks[pos + 2] == q[2];
    assert QuantifierAt(sels, toks, c, pos + 1) == Ok((e, pos + 3));
    if c.AtLeast? {
      NumeralOf(c.n);
    }
  }

  lemma SelectionParses(sels: Selections, e: Expr, toks: seq<Token>, pos: nat)
    requires e.Sel? && Producible(sels, e) && Stands(toks, pos, [Token(KIdent, e.name)])
    requires KindAt(toks, pos + 1) != Some(KOf)
    ensures PrimaryAt(sels, toks, pos) == Ok((e, pos + 1))
  {
    assert toks[pos + 0] == [Token(KIdent, e.name)][0];
  }

  /** The tokens of an expression parse back to it as a primary. */
  lemma {:induction false} PrimaryParses(sels: Selections, e: Expr, toks: seq<Token>, pos: nat)
    requires Producible(sels, e) && Stands(toks, pos, Tokens(sels, e))
    requires KindAt(toks, pos + |Tokens(sels, e)|) != Some(KOf)
    ensures PrimaryAt(sels, toks, pos) == Ok((e, pos + |Tokens(sels, e)|))
    decreases Size(e), 0
  {
    hide PrimaryAt, IsIdentWord, BuiltFrom, Stands;
    match e
    case Sel(_, _) => SelectionParses(sels, e, toks, pos);
    case And(l, r) => InfixParses(sels, e, l, r, toks, pos);
    case Or(l, r) => InfixParses(sels, e, l, r, toks, pos);
    case Not(x) => PrefixParses(sels, e, x, toks, pos);
    case Quantifier(_, _, _) =>
      var c, t :| BuiltFrom(sels, e, c, t) && Tokens(sels, e) == QuantifierTokens(c, t);
      QuantifierParses(sels, e, c, t, toks, pos);
  }

  /** An expression's tokens never start with `not`, so all the levels of the
      grammar above a primary pass them through. */
  lemma {:induction false} NotParses(sels: Selections, e: Expr, toks: seq<Token>, pos: nat)
    requires Producible(sels, e) && Stands(toks, pos, Tokens(sels, e))
    requires KindAt(toks, pos + |Tokens(sels, e)|) != Some(KOf)
    ensures NotAt(sels, toks, pos) == Ok((e, pos + |Tokens(sels, e)|))
    decreases Size(e), 1
  {
    PrimaryParses(sels, e, toks, pos);
    assert toks[pos + 0] == Tokens(sels, e)[0];
  }

  lemma ParenthesesParse(sels: Selections, e: Expr, toks: seq<Token>, pos: nat, q: nat)
    requires pos < q < |toks| && toks[pos] == LP && toks[q] == RP && OrAt(sels, toks, pos + 1) == Ok((e, q))
    ensures PrimaryAt(sels, toks, pos) == Ok((e, q + 1))
  {
    hide OrAt;
  }

  lemma InfixLayout(toks: seq<Token>, pos: nat, tl: seq<Token>, op: Token, tr: seq<Token>)
    requires Stands(toks, pos, [LP] + tl + [op] + tr + [RP])
    ensures var p := pos + 1 + |tl|;
            var q := p + 1 + |tr|;
            && q < |toks| && toks[pos] == LP && toks[p] == op && toks[q] == RP
            && Stands(toks, pos + 1, tl) && Stands(toks, p + 1, tr)
  {
    var ts := [LP] + tl + [op] + tr + [RP];
    StandsPart(toks, pos, ts, 1, 1 + |tl|);
    StandsPart(toks, pos, ts, 2 + |tl|, 2 + |tl| + |tr|);
    assert ts[1..1 + |tl|] == tl && ts[2 + |tl|..2 + |tl| + |tr|] == tr;
    assert toks[pos + 0] == ts[0] == LP;
    assert toks[pos + (1 + |tl|)] == ts[1 + |tl|] == op;
    assert toks[pos + (2 + |tl| + |tr|)] == ts[2 + |tl| + |tr|] == RP;
  }

  lemma InfixTokens(sels: Selections, e: Expr, l: Expr, r: Expr)
    requires (e == And(l, r) || e == Or(l, r)) && Producible(sels, e)
    ensures Producible(sels, l) && Producible(sels, r)
    ensures Tokens(sels, e) == [LP] + Tokens(sels, l)
              + [if e.And? then Token(KAnd, "and") else Token(KOr, "or")] + Tokens(sels, r) + [RP]
  {
    hide BuiltFrom, IsIdentWord;
  }

  lemma {:induction false} InfixParses(sels: Selections, e: Expr, l: Expr, r: Expr, toks: seq<Token>, pos: nat)
    requires e == And(l, r) || e == Or(l, r)
    requires Producible(sels, e) && Stands(toks, pos, Tokens(sels, e))
    ensures PrimaryAt(sels, toks, pos) == Ok((e, pos + |Tokens(sels, e)|))
    decreases Size(l) + Size(r), 2
  {
    hide NotAt, OrAt, AndAt, OrTail, AndTail, PrimaryAt, Stands, BuiltFrom, IsIdentWord, Tokens, Producible;
    InfixTokens(sels, e, l, r);
    var tl, tr := Tokens(sels, l), Tokens(sels, r);
    var op := if e.And? then Token(KAnd, "and") else Token(KOr, "or");
    InfixLayout(toks, pos, tl, op, tr);
    var p, q := pos + 1 + |tl|, pos + 2 + |tl| + |tr|;
    NotParses(sels, l, toks, pos + 1);
    NotParses(sels, r, toks, p + 1);
    AfterOperand(sels, e, l, r, toks, pos + 1, p, q);
    ParenthesesParse(sels, e, toks, pos, q);
  }

  /** What the two loops make of operand, operator, operand, closing parenthesis. */
  lemma AfterOperand(sels: Selections, e: Expr, l: Expr, r: Expr, toks: seq<Token>, pos: nat, p: nat, q: nat)
    requires e == And(l, r) || e == Or(l, r)
    requires pos < p < q < |toks| && toks[p].kind == (if e.And? then KAnd else KOr) && toks[q].kind == KRparen
    requires NotAt(sels, toks, pos) == Ok((l, p)) && NotAt(sels, toks, p + 1) == Ok((r, q))
    ensures OrAt(sels, toks, pos) == Ok((e, q))
  {
    if e.And? {
      assert AndTail(sels, toks, And(l, r), q) == Ok((e, q));
      assert AndTail(sels, toks, l, p) == Ok((e, q));
      assert OrTail(sels, toks, e, q) == Ok((e, q));
    } else {
      assert AndTail(sels, toks, l, p) == Ok((l, p));
      assert AndTail(sels, toks, r, q) == Ok((r, q));
      assert OrTail(sels, toks, Or(l, r), q) == Ok((e, q));
      assert OrTail(sels, toks, l, p) == Ok((e, q));
    }
  }

  lemma PrefixLayout(toks: seq<Token>, pos: nat, tx: seq<Token>)
    requires Stands(toks, pos, [LP, Token(KNot, "not")] + tx + [RP])
    ensures var q := pos + 2 + |tx|;
            && q < |toks| && toks[pos] == LP && toks[pos + 1] == Token(KNot, "not") && toks[q] == RP
            && Stands(toks, pos + 2, tx)
  {
    var ts := [LP, Token(KNot, "not")] + tx + [RP];
    StandsPart(toks, pos, ts, 2, 2 + |tx|);
    assert ts[2..2 + |tx|] == tx;
    assert toks[pos + 0] == ts[0] == LP && toks[pos + 1] == ts[1] == Token(KNot, "not");
    assert toks[pos + (2 + |tx|)] == ts[2 + |tx|] == RP;
  }

  lemma {:induction false} PrefixParses(sels: Selections, e: Expr, x: Expr, toks: seq<Token>, pos: nat)
    requires e == Not(x) && Producible(sels, e) && Stands(toks, pos, Tokens(sels, e))
    ensures PrimaryAt(sels, toks, pos) == Ok((e, pos + |Tokens(sels, e)|))
    decreases Size(x), 2
  {
    hide NotAt, OrAt, AndAt, OrTail, AndTail, PrimaryAt, Stands, BuiltFrom, IsIdentWord;
    var tx := Tokens(sels, x);
    PrefixLayout(toks, pos, tx);
    NotParses(sels, x, toks, pos + 2);
    AfterPrefix(sels, x, toks, pos + 1, pos + 2 + |tx|);
    ParenthesesParse(sels, e, toks, pos, pos + 2 + |tx|);
  }

  lemma AfterPrefix(sels: Selections, x: Expr, toks: seq<Token>, pos: nat, q: nat)
    requires pos < q < |toks| && toks[pos].kind == KNot && toks[q].kind == KRparen
    requires NotAt(sels, toks, pos + 1) == Ok((x, q))
    ensures OrAt(sels, toks, pos) == Ok((Not(x), q))
  {
    assert NotAt(sels, toks, pos) == Ok((Not(x), q));
    assert AndTail(sels, toks, Not(x), q) == Ok((Not(x), q));
    assert OrTail(sels, toks, Not(x), q) == Ok((Not(x), q));
  }

  lemma NotABinaryNear(sels: Selections, e: Expr)
    requires Producible(sels, e)
    ensures |Tokens(sels, e)| == 3 ==> Tokens(sels, e)[1].kind == KOf
  {
    if e.Quantifier? {
      var c, t :| BuiltFrom(sels, e, c, t) && Tokens(sels, e) == QuantifierTokens(c, t);
    }
  }

  lemma WholeParses(sels: Selections, e: Expr)
    requires Producible(sels, e)
    ensures Condition(sels, Tokens(sels, e)) == Ok((e, None))
  {
    hide Tokens, Producible, NotAt;
    var toks := Tokens(sels, e);
    NotParses(sels, e, toks, 0);
    assert NotAt(sels, toks, 0) == Ok((e, |toks|));
    assert AndTail(sels, toks, e, |toks|) == Ok((e, |toks|));
    assert OrTail(sels, toks, e, |toks|) == Ok((e, |toks|));
    assert AndAt(sels, toks, 0) == Ok((e, |toks|));
    assert OrAt(sels, toks, 0) == Ok((e, |toks|));
    NotABinaryNear(sels, e);
  }

  /** Every expression the parser can produce is printed so that it reads back. */
  lemma PrintParses(sels: Selections, e: Expr)
    requires Producible(sels, e)
    ensures Parse(sels, Print(e)) == Ok((e, None))
  {
    LexPrint(sels, e, "");
    assert Print(e) + "" == Print(e);
    assert Tokens(sels, e) + [] == Tokens(sels, e);
    WholeParses(sels, e);
  }

  lemma NearProduces(sels: Selections, src: string)
    requires WellNamed(sels) && Parse(sels, src).Ok? && Parse(sels, src).value.0.Near?
    ensures var e := Parse(sels, src).value.0;
            && Producible(sels, Sel(e.left.name, e.left)) && Producible(sels, Sel(e.right.name, e.right))
  {
    LexWellFormed(src);
    var toks := Lex(src).value;
    if OrAt(sels, toks, 0).Ok? {
      OrProduces(sels, toks, 0);
    }
  }

  lemma NearWord()
    ensures IsWord("near") && WordKind("near") == KNear
  {
    assert Lower("near") == "near";
  }

  /** A printed temporal join does not read back: the printer's parentheses are
      not part of the one form of `near` the parser knows. */
  lemma NearIsRejected(sels: Selections, left: Selection, right: Selection, withinSecs: nat)
    requires Producible(sels, Sel(left.name, left)) && Producible(sels, Sel(right.name, right))
    ensures Parse(sels, Print(Near(left, right, withinSecs))) == Err(MissingParen)
  {
    hide Lex, PrimaryAt, NotAt, AndAt, OrAt;
    NearWord();
    var l, r := Sel(left.name, left), Sel(right.name, right);
    LexInfix(sels, l, "near", r, "");
    var toks := [LP] + Tokens(sels, l) + [Token(KNear, "near")] + Tokens(sels, r) + [RP];
    assert " " + "near" + " " == " near ";
    assert Lex(Print(Near(left, right, withinSecs))) == Ok(toks) by {
      assert Print(Near(left, right, withinSecs)) + "" == Print(Near(left, right, withinSecs));
      assert Lex("") == Ok([]) by { EmptyText(); }
      assert toks + [] == toks;
    }
    assert toks == [LP, Token(KIdent, left.name), Token(KNear, "near"), Token(KIdent, right.name), RP];
    UnclosedNear(sels, l, toks);
  }

  lemma EmptyText()
    ensures Lex("") == Ok([])
  {
  }

  lemma UnclosedNear(sels: Selections, l: Expr, toks: seq<Token>)
    requires l.Sel? && Producible(sels, l) && |toks| == 5
    requires toks[0] == LP && toks[1] == Token(KIdent, l.name) && toks[2].kind == KNear
    ensures Condition(sels, toks) == Err(MissingParen)
  {
    SelectionParses(sels, l, toks, 1);
    assert NotAt(sels, toks, 1) == Ok((l, 2));
    assert AndTail(sels, toks, l, 2) == Ok((l, 2));
    assert AndAt(sels, toks, 1) == Ok((l, 2));
    assert OrTail(sels, toks, l, 2) == Ok((l, 2));
    assert OrAt(sels, toks, 1) == Ok((l, 2));
    assert PrimaryAt(sels, toks, 0) == Err(MissingParen);
    assert NotAt(sels, toks, 0) == Err(MissingParen);
    assert AndAt(sels, toks, 0) == Err(MissingParen);
  }

  /** The round trip for every condition text that parses, with or without an
      aggregation tail: it holds if and only if the condition is no temporal
      join. */
  lemma RoundTrip(sels: Selections, src: string)
    requires WellNamed(sels) && Parse(sels, src).Ok?
    ensures var e := Parse(sels, src).value.0;
            Parse(sels, Print(e)) == Ok((e, None)) <==> !e.Near?
  {
    var e := Parse(sels, src).value.0;
    if e.Near? {
      NearProduces(sels, src);
      NearIsRejected(sels, e.left, e.right, e.withinSecs);
    } else {
      ParserProduces(sels, src);
      PrintParses(sels, e);
    }
  }
}
