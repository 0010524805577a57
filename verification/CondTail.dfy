/** The aggregation tail in writing: `| count() by field, ... OP N` is read back
    as it was, behind any condition. */
module CondTail {
  import opened Wrappers
  import opened RuleAst
  import opened CondLexer
  import opened CondParser
  import opened CondRoundTrip
  import opened CondGrammar
  import Decimal

  function FieldsText(fields: seq<string>): string
    requires fields != []
  {
    if |fields| == 1 then fields[0] else fields[0] + ("," + (" " + FieldsText(fields[1..])))
  }

  function ComparisonText(agg: Aggregation): string {
    " " + (OpText(agg.op) + (" " + Decimal.Print(agg.threshold)))
  }

  function TailText(agg: Aggregation): string {
    " " + ("|" + (" " + ("count" + ("(" + (")" +
      (if agg.groupBy == [] then ComparisonText(agg)
       else " " + ("by" + (" " + (FieldsText(agg.groupBy) + ComparisonText(agg))))))))))
  }

  /** The tails the parser can produce. */
  predicate TailOk(agg: Aggregation) {
    agg.threshold <= MAX_INT && forall i :: 0 <= i < |agg.groupBy| ==> IsIdentWord(agg.groupBy[i])
  }

  function FieldTokens(fields: seq<string>): (ts: seq<Token>)
    requires fields != []
    ensures |ts| == 2 * |fields| - 1
  {
    if |fields| == 1 then [Token(KIdent, fields[0])]
    else [Token(KIdent, fields[0]), Token(KComma, ",")] + FieldTokens(fields[1..])
  }

  function ComparisonTokens(agg: Aggregation): seq<Token> {
    [Token(KCmp, OpText(agg.op)), Token(KNumber, Decimal.Print(agg.threshold))]
  }

  function TailTokens(agg: Aggregation): seq<Token> {
    [Token(KPipe, "|"), Token(KIdent, "count"), LP, RP] +
    (if agg.groupBy == [] then [] else [Token(KIdent, "by")] + FieldTokens(agg.groupBy)) + ComparisonTokens(agg)
  }

  // ----- the text gives the tokens -----

  lemma LexMark(c: char, s: string)
    requires c == '|' || c == ','
    ensures Lex([c] + s) == Cons([Token(if c == '|' then KPipe else KComma, [c])], Lex(s))
  {
    assert ([c] + s)[..1] == [c] && ([c] + s)[1..] == s;
  }

  lemma LexOp(op: AggOp, s: string)
    requires s == [] || s[0] != '='
    ensures Lex(OpText(op) + s) == Cons([Token(KCmp, OpText(op))], Lex(s))
  {
    hide First;
    var t := OpText(op) + s;
    FirstOp(op, s);
    assert t[0] == OpText(op)[0] && t[|OpText(op)|..] == s;
  }

  lemma FirstOp(op: AggOp, s: string)
    requires s == [] || s[0] != '='
    ensures First(OpText(op) + s) == Ok(Token(KCmp, OpText(op)))
  {
    hide WordKind, Span, IsIdentStart;
    var t := OpText(op) + s;
    assert t[..|OpText(op)|] == OpText(op) && t[0] == OpText(op)[0];
    if |OpText(op)| == 1 {
      assert |t| > 1 ==> t[1] == s[0];
    } else {
      assert t[1] == OpText(op)[1];
    }
  }

  lemma TailWords()
    ensures IsWord("count") && IsWord("by") && WordKind("count") == KIdent && WordKind("by") == KIdent
    ensures Lower("count") == "count" && Lower("by") == "by"
  {
    assert Lower("count") == "count";
    assert Lower("by") == "by";
  }

  lemma LexComparison(agg: Aggregation)
    ensures Lex(ComparisonText(agg)) == Ok(ComparisonTokens(agg))
  {
    hide Lex, OpText, Cons, Decimal.Print;
    var n := Decimal.Print(agg.threshold);
    NumeralOf(agg.threshold);
    LexSpace(OpText(agg.op) + (" " + n));
    LexOp(agg.op, " " + n);
    LexSpace(n);
    LexNumeral(n, "");
    assert n + "" == n;
    LexEmpty();
    ConsAppend([Token(KCmp, OpText(agg.op))], [Token(KNumber, n)], Ok([]));
    assert [Token(KCmp, OpText(agg.op))] + [Token(KNumber, n)] == ComparisonTokens(agg);
    ConsOk(ComparisonTokens(agg));
  }

  lemma LexEmpty()
    ensures Lex("") == Ok([])
  {
  }

  lemma ConsOk(ts: seq<Token>)
    ensures Cons(ts, Ok([])) == Ok(ts)
  {
    assert ts + [] == ts;
  }

  lemma {:induction false} LexFields(fields: seq<string>, s: string)
    requires fields != [] && Delimited(s) && forall i :: 0 <= i < |fields| ==> IsIdentWord(fields[i])
    ensures Lex(FieldsText(fields) + s) == Cons(FieldTokens(fields), Lex(s))
    decreases |fields|
  {
    hide Lex, Cons, IsIdentWord;
    IdentWordKind(fields[0]);
    if |fields| == 1 {
      LexWord(fields[0], s);
    } else {
      var rest := FieldsText(fields[1..]) + s;
      FieldsSplit(fields, s);
      LexWord(fields[0], "," + (" " + rest));
      LexMark(',', " " + rest);
      LexSpace(rest);
      LexFields(fields[1..], s);
      ConsAppend([Token(KComma, ",")], FieldTokens(fields[1..]), Lex(s));
      ConsAppend([Token(KIdent, fields[0])], [Token(KComma, ",")] + FieldTokens(fields[1..]), Lex(s));
      assert [Token(KIdent, fields[0])] + ([Token(KComma, ",")] + FieldTokens(fields[1..])) == FieldTokens(fields);
    }
  }

  lemma FieldsSplit(fields: seq<string>, s: string)
    requires |fields| > 1
    ensures FieldsText(fields) + s == fields[0] + ("," + (" " + (FieldsText(fields[1..]) + s)))
  {
  }

  /** The part behind the parentheses. */
  function GroupedText(agg: Aggregation): string {
    if agg.groupBy == [] then ComparisonText(agg)
    else " " + ("by" + (" " + (FieldsText(agg.groupBy) + ComparisonText(agg))))
  }

  function GroupedTokens(agg: Aggregation): seq<Token> {
    (if agg.groupBy == [] then [] else [Token(KIdent, "by")] + FieldTokens(agg.groupBy)) + ComparisonTokens(agg)
  }

  lemma LexGrouped(agg: Aggregation)
    requires TailOk(agg)
    ensures Lex(GroupedText(agg)) == Ok(GroupedTokens(agg))
  {
    hide Lex, Cons, IsWord, WordKind, Lower, IsIdentWord, FieldsText, FieldTokens, ComparisonTokens;
    LexComparison(agg);
    if agg.groupBy == [] {
      assert [] + ComparisonTokens(agg) == ComparisonTokens(agg);
    } else {
      var rest := FieldsText(agg.groupBy) + ComparisonText(agg);
      TailWords();
      LexKeyword("by", rest);
      LexFields(agg.groupBy, ComparisonText(agg));
      ConsTwo([Token(KIdent, "by")], FieldTokens(agg.groupBy), ComparisonTokens(agg));
    }
  }

  lemma ConsTwo(a: seq<Token>, b: seq<Token>, c: seq<Token>)
    ensures Cons(a, Cons(b, Ok(c))) == Ok(a + b + c)
  {
    assert a + (b + c) == a + b + c;
  }

  lemma LexTail(agg: Aggregation)
    requires TailOk(agg)
    ensures Lex(TailText(agg)) == Ok(TailTokens(agg))
  {
    hide Lex, Cons, IsWord, WordKind, Lower, TailOk, GroupedText, GroupedTokens;
    TailWords();
    TailTextIs(agg);
    var g := GroupedText(agg);
    LexSpace("|" + (" " + ("count" + ("(" + (")" + g)))));
    LexMark('|', " " + ("count" + ("(" + (")" + g))));
    LexSpace("count" + ("(" + (")" + g)));
    LexWord("count", "(" + (")" + g));
    LexParen(true, ")" + g);
    LexParen(false, g);
    LexGrouped(agg);
    ConsFour(Token(KPipe, "|"), Token(KIdent, "count"), LP, RP, GroupedTokens(agg));
    TailTokensAre(agg);
  }

  lemma TailTextIs(agg: Aggregation)
    ensures TailText(agg) == " " + ("|" + (" " + ("count" + ("(" + (")" + GroupedText(agg))))))
  {
  }

  lemma TailTokensAre(agg: Aggregation)
    ensures TailTokens(agg) == [Token(KPipe, "|"), Token(KIdent, "count"), LP, RP] + GroupedTokens(agg)
  {
  }

  lemma ConsFour(a: Token, b: Token, c: Token, d: Token, ts: seq<Token>)
    ensures Cons([a], Cons([b], Cons([c], Cons([d], Ok(ts))))) == Ok([a, b, c, d] + ts)
  {
    assert [a] + ([b] + ([c] + ([d] + ts))) == [a, b, c, d] + ts;
  }

  // ----- the tokens are the tail -----

  lemma {:induction false} FieldTokensList(toks: seq<Token>, pos: nat, fields: seq<string>)
    requires fields != [] && Stands(toks, pos, FieldTokens(fields))
    ensures FieldList(toks, pos, fields)
    decreases |fields|
  {
    var ts := FieldTokens(fields);
    assert toks[pos + 0] == ts[0];
    if |fields| > 1 {
      assert toks[pos + 1] == ts[1];
      StandsPart(toks, pos, ts, 2, |ts|);
      assert ts[2..|ts|] == FieldTokens(fields[1..]);
      FieldTokensList(toks, pos + 2, fields[1..]);
      hide FieldList;
      MoreFields(toks, pos, fields[1..]);
      assert [fields[0]] + fields[1..] == fields;
    }
  }

  lemma TailStands(before: seq<Token>, agg: Aggregation)
    requires TailOk(agg)
    ensures var toks := before + TailTokens(agg);
            toks[|before|].kind == KPipe && TailAt(toks, |before| + 1, agg)
  {
    hide Decimal.Print, Decimal.Value, OpText, FieldTokens, FieldList, Lower, IsIdentWord;
    var toks, k, ts := before + TailTokens(agg), |before|, TailTokens(agg);
    TailWords();
    NumeralOf(agg.threshold);
    assert toks[k] == ts[0] && toks[k + 1] == ts[1] && toks[k + 2] == ts[2] && toks[k + 3] == ts[3];
    assert toks[|toks| - 2] == ComparisonTokens(agg)[0] && toks[|toks| - 1] == ComparisonTokens(agg)[1];
    if agg.groupBy != [] {
      assert toks[k + 4] == Token(KIdent, "by");
      var fs := FieldTokens(agg.groupBy);
      assert Stands(toks, k + 5, fs) by {
        assert forall i :: 0 <= i < |fs| ==> toks[k + 5 + i] == fs[i];
      }
      FieldTokensList(toks, k + 5, agg.groupBy);
    }
  }

  // ----- the round trip -----

  /** Behind every expression the parser can produce, every tail it can produce
      is read back. */
  lemma TailParses(sels: Selections, e: Expr, agg: Aggregation)
    requires Producible(sels, e) && TailOk(agg)
    ensures Parse(sels, Print(e) + TailText(agg)) == Ok((e, Some(agg)))
  {
    hide Lex, Condition, TailTokens, Print, Producible, Tokens, TailOk, TailAt, Derived, Cons, TailText;
    var before, tail := Tokens(sels, e), TailTokens(agg);
    SpaceFirst(agg);
    LexPrint(sels, e, TailText(agg));
    LexTail(agg);
    ConsOne(before, tail);
    WholeParses(sels, e);
    NotABinaryNear(sels, e);
    ConditionExactly(sels, before, e, None);
    TailStands(before, agg);
    TailIsLong(agg);
    var toks := before + tail;
    assert toks[..|before|] == before;
    assert Says(sels, toks, e, Some(agg));
    ConditionExactly(sels, toks, e, Some(agg));
  }

  lemma SpaceFirst(agg: Aggregation)
    ensures Delimited(TailText(agg))
  {
  }

  lemma TailIsLong(agg: Aggregation)
    ensures |TailTokens(agg)| >= 6
  {
  }

  lemma ConsOne(a: seq<Token>, b: seq<Token>)
    ensures Cons(a, Ok(b)) == Ok(a + b)
  {
  }

  /** Whatever condition with a tail was parsed is written so that it reads back. */
  lemma TailRoundTrip(sels: Selections, src: string)
    requires Parse(sels, src).Ok? && Parse(sels, src).value.1.Some?
    ensures var (e, agg) := Parse(sels, src).value;
            Parse(sels, Print(e) + TailText(agg.value)) == Ok((e, agg))
  {
    hide Lex, Condition, Producible, TailOk, TailAt, Derived;
    var toks := Lex(src).value;
    var (e, agg) := Parse(sels, src).value;
    ConditionExactly(sels, toks, e, agg);
    LexWellFormed(src);
    var k :| 0 <= k < |toks| && toks[k].kind == KPipe && Derived(sels, toks[..k], e) && TailAt(toks, k + 1, agg.value);
    WrittenTailOk(toks, k + 1, agg.value);
    NotNear(sels, toks[..k], e);
    ParserProduces(sels, src);
    TailParses(sels, e, agg.value);
  }

  lemma NotNear(sels: Selections, ts: seq<Token>, e: Expr)
    requires Derived(sels, ts, e)
    ensures !e.Near?
  {
    hide Quantify;
    var p :| Derives(sels, p, ts, e);
    MeaningNotNear(sels, p, e);
  }

  lemma {:induction false} MeaningNotNear(sels: Selections, p: Phrase, e: Expr)
    requires MeaningOf(sels, p) == Some(e)
    ensures !e.Near?
  {
    if p.Parens? {
      MeaningNotNear(sels, p.inner, e);
    }
  }

  lemma WrittenTailOk(toks: seq<Token>, pos: nat, agg: Aggregation)
    requires WellFormed(toks) && TailAt(toks, pos, agg)
    ensures TailOk(agg)
  {
    hide IsIdentWord;
    forall i | 0 <= i < |agg.groupBy|
      ensures IsIdentWord(agg.groupBy[i])
    {
      assert toks[pos + 4 + 2 * i].value == agg.groupBy[i];
    }
  }
}
