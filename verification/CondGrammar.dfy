/** The grammar of conditions, said without a parser: what the phrases are, how
    tightly `not`, `and` and `or` bind, which tokens a phrase is written with and
    what it means. The parser accepts exactly these phrases, as these trees. */
module CondGrammar {
  import opened Wrappers
  import opened RuleAst
  import opened CondLexer
  import opened CondParser
  import opened CondRoundTrip
  import opened Quantifiers
  import Decimal

  /** A phrase, with the tokens it is written with. */
  datatype Phrase =
    | Name(word: Token)
    | Many(count: Token, of: Token, target: Token)
    | Parens(open: Token, inner: Phrase, close: Token)
    | Neg(op: Token, x: Phrase)
    | Conj(l: Phrase, op: Token, r: Phrase)
    | Disj(l: Phrase, op: Token, r: Phrase)

  /** How tightly a phrase holds together. */
  function Level(p: Phrase): nat {
    match p
    case Disj(_, _, _) => 0
    case Conj(_, _, _) => 1
    case Neg(_, _) => 2
    case _ => 3
  }

  /** `or` joins anything on its left with an and-phrase, `and` an and-phrase with
      a not-phrase; so `and` binds tighter and both associate to the left. */
  predicate Grammatical(p: Phrase) {
    match p
    case Name(word) => word.kind == KIdent
    case Many(count, of, target) =>
      && (count.kind == KNumber || (count.kind == KIdent && Lower(count.value) in {"all", "any"}))
      && of.kind == KOf && (target.kind == KThem || target.kind == KIdent)
    case Parens(open, inner, close) => open.kind == KLparen && close.kind == KRparen && Grammatical(inner)
    case Neg(op, x) => op.kind == KNot && Level(x) >= 2 && Grammatical(x)
    case Conj(l, op, r) => op.kind == KAnd && Level(l) >= 1 && Level(r) >= 2 && Grammatical(l) && Grammatical(r)
    case Disj(l, op, r) => op.kind == KOr && Level(r) >= 1 && Grammatical(l) && Grammatical(r)
  }

  function Yield(p: Phrase): (ts: seq<Token>)
    ensures ts != []
  {
    match p
    case Name(word) => [word]
    case Many(count, of, target) => [count, of, target]
    case Parens(open, inner, close) => [open] + Yield(inner) + [close]
    case Neg(op, x) => [op] + Yield(x)
    case Conj(l, op, r) => Yield(l) + [op] + Yield(r)
    case Disj(l, op, r) => Yield(l) + [op] + Yield(r)
  }

  /** What a count word or number says, if anything. */
  function CountOf(t: Token): Option<Count> {
    if t.kind == KNumber then
      if IsNumeral(t.value) && 1 <= Decimal.Value(t.value) <= MAX_INT then Some(AtLeast(Decimal.Value(t.value))) else None
    else if Lower(t.value) == "all" then Some(All)
    else Some(AtLeast(1))
  }

  function TargetOf(t: Token): Target { if t.kind == KThem then Them else Named(t.value) }

  ghost function MeaningOf(sels: Selections, p: Phrase): Option<Expr> {
    match p
    case Name(word) => if word.value in sels then Some(Sel(word.value, sels[word.value])) else None
    case Many(count, _, target) =>
      if CountOf(count).None? then None
      else
        var q := Quantify(sels, CountOf(count).value, TargetOf(target));
        if q.Ok? then Some(q.value) else None
    case Parens(_, inner, _) => MeaningOf(sels, inner)
    case Neg(_, x) => var e := MeaningOf(sels, x); if e.Some? then Some(Not(e.value)) else None
    case Conj(l, _, r) =>
      var a, b := MeaningOf(sels, l), MeaningOf(sels, r);
      if a.Some? && b.Some? then Some(And(a.value, b.value)) else None
    case Disj(l, _, r) =>
      var a, b := MeaningOf(sels, l), MeaningOf(sels, r);
      if a.Some? && b.Some? then Some(Or(a.value, b.value)) else None
  }

  ghost predicate Derives(sels: Selections, p: Phrase, ts: seq<Token>, e: Expr) {
    Grammatical(p) && Yield(p) == ts && MeaningOf(sels, p) == Some(e)
  }

  lemma NameDerives(sels: Selections, word: Token)
    requires word.kind == KIdent && word.value in sels
    ensures Derives(sels, Name(word), [word], Sel(word.value, sels[word.value]))
  {
  }

  lemma ConjDerives(sels: Selections, l: Phrase, tl: seq<Token>, a: Expr, op: Token, r: Phrase, tr: seq<Token>, b: Expr)
    requires Derives(sels, l, tl, a) && Level(l) >= 1 && op.kind == KAnd && Derives(sels, r, tr, b) && Level(r) >= 2
    ensures Derives(sels, Conj(l, op, r), tl + [op] + tr, And(a, b))
  {
  }

  lemma DisjDerives(sels: Selections, l: Phrase, tl: seq<Token>, a: Expr, op: Token, r: Phrase, tr: seq<Token>, b: Expr)
    requires Derives(sels, l, tl, a) && op.kind == KOr && Derives(sels, r, tr, b) && Level(r) >= 1
    ensures Derives(sels, Disj(l, op, r), tl + [op] + tr, Or(a, b))
  {
  }

  lemma ParensDerives(sels: Selections, open: Token, p: Phrase, ts: seq<Token>, e: Expr, close: Token)
    requires open.kind == KLparen && Derives(sels, p, ts, e) && close.kind == KRparen
    ensures Derives(sels, Parens(open, p, close), [open] + ts + [close], e)
  {
  }

  lemma NegDerives(sels: Selections, op: Token, p: Phrase, ts: seq<Token>, e: Expr)
    requires op.kind == KNot && Derives(sels, p, ts, e) && Level(p) >= 2
    ensures Derives(sels, Neg(op, p), [op] + ts, Not(e))
  {
  }

  // ----- every phrase is read as what it means -----

  /** A meaningful phrase that stands at a position. */
  ghost predicate Reads(sels: Selections, toks: seq<Token>, pos: nat, p: Phrase, e: Expr) {
    Grammatical(p) && MeaningOf(sels, p) == Some(e) && Stands(toks, pos, Yield(p))
  }

  function End(pos: nat, p: Phrase): nat { pos + |Yield(p)| }

  lemma {:induction false} PrimaryReads(sels: Selections, toks: seq<Token>, pos: nat, p: Phrase, e: Expr)
    requires Reads(sels, toks, pos, p, e) && Level(p) == 3 && KindAt(toks, End(pos, p)) != Some(KOf)
    ensures PrimaryAt(sels, toks, pos) == Ok((e, End(pos, p))) && toks[pos].kind != KNot
    decreases p, 0
  {
    hide Quantify, QuantifierAt, Decimal.Value;
    assert toks[pos + 0] == Yield(p)[0];
    match p
    case Name(_) =>
    case Many(count, of, target) => ManyReads(sels, toks, pos, p, e);
    case Parens(open, inner, close) =>
      hide Stands;
      ParensLayout(toks, pos, open, Yield(inner), close);
      OrReads(sels, toks, pos + 1, inner, e);
      hide OrAt;
      assert OrTail(sels, toks, e, End(pos + 1, inner)) == Ok((e, End(pos + 1, inner)));
  }

  lemma ManyReads(sels: Selections, toks: seq<Token>, pos: nat, p: Phrase, e: Expr)
    requires Reads(sels, toks, pos, p, e) && p.Many?
    ensures PrimaryAt(sels, toks, pos) == Ok((e, pos + 3))
  {
    hide Quantify, OrAt, Decimal.Value;
    var ts := Yield(p);
    assert toks[pos + 0] == ts[0] && toks[pos + 1] == ts[1] && toks[pos + 2] == ts[2];
    assert QuantifierAt(sels, toks, CountOf(p.count).value, pos + 1) == Ok((e, pos + 3));
  }

  lemma ParensLayout(toks: seq<Token>, pos: nat, open: Token, ts: seq<Token>, close: Token)
    requires Stands(toks, pos, [open] + ts + [close])
    ensures var q := pos + 1 + |ts|;
            q < |toks| && toks[pos] == open && toks[q] == close && Stands(toks, pos + 1, ts)
  {
    var all := [open] + ts + [close];
    StandsPart(toks, pos, all, 1, 1 + |ts|);
    assert all[1..1 + |ts|] == ts;
    assert toks[pos + 0] == all[0] && toks[pos + (1 + |ts|)] == all[1 + |ts|];
  }

  lemma InfixStands(toks: seq<Token>, pos: nat, tl: seq<Token>, op: Token, tr: seq<Token>)
    requires Stands(toks, pos, tl + [op] + tr)
    ensures var q := pos + |tl|;
            q < |toks| && toks[q] == op && Stands(toks, pos, tl) && Stands(toks, q + 1, tr)
  {
    var all := tl + [op] + tr;
    StandsPart(toks, pos, all, 0, |tl|);
    StandsPart(toks, pos, all, |tl| + 1, |all|);
    assert all[0..|tl|] == tl && all[|tl| + 1..|all|] == tr;
    assert toks[pos + |tl|] == all[|tl|];
  }

  lemma {:induction false} NotReads(sels: Selections, toks: seq<Token>, pos: nat, p: Phrase, e: Expr)
    requires Reads(sels, toks, pos, p, e) && Level(p) >= 2 && KindAt(toks, End(pos, p)) != Some(KOf)
    ensures NotAt(sels, toks, pos) == Ok((e, End(pos, p)))
    decreases p, 1
  {
    if p.Neg? {
      assert [p.op] + Yield(p.x) == [] + [p.op] + Yield(p.x);
      InfixStands(toks, pos, [], p.op, Yield(p.x));
      NotReads(sels, toks, pos + 1, p.x, e.x);
    } else {
      PrimaryReads(sels, toks, pos, p, e);
    }
  }

  /** Where the parts of an infix phrase stand. */
  lemma InfixReads(sels: Selections, toks: seq<Token>, pos: nat, p: Phrase, e: Expr)
    requires Reads(sels, toks, pos, p, e) && (p.Conj? || p.Disj?)
    ensures var q := End(pos, p.l);
            && (if p.Conj? then e.And? && Level(p.l) >= 1 && Level(p.r) >= 2 else e.Or? && Level(p.r) >= 1)
            && KindAt(toks, q) == Some(if p.Conj? then KAnd else KOr) && End(q + 1, p.r) == End(pos, p) <= |toks|
            && Reads(sels, toks, pos, p.l, e.l) && Reads(sels, toks, q + 1, p.r, e.r)
  {
    hide Quantify;
    InfixStands(toks, pos, Yield(p.l), p.op, Yield(p.r));
  }

  lemma AndStep(sels: Selections, toks: seq<Token>, a: Expr, pos: nat, b: Expr, q: nat)
    requires KindAt(toks, pos) == Some(KAnd) && NotAt(sels, toks, pos + 1) == Ok((b, q))
    ensures AndTail(sels, toks, a, pos) == AndTail(sels, toks, And(a, b), q)
  {
    hide NotAt;
  }

  lemma OrStep(sels: Selections, toks: seq<Token>, a: Expr, pos: nat, b: Expr, q: nat)
    requires KindAt(toks, pos) == Some(KOr) && AndAt(sels, toks, pos + 1) == Ok((b, q))
    ensures OrTail(sels, toks, a, pos) == OrTail(sels, toks, Or(a, b), q)
  {
    hide AndAt;
  }

  lemma ReadsWithin(sels: Selections, toks: seq<Token>, pos: nat, p: Phrase, e: Expr)
    requires Reads(sels, toks, pos, p, e)
    ensures End(pos, p) <= |toks|
  {
  }

  lemma {:induction false} AndReads(sels: Selections, toks: seq<Token>, pos: nat, p: Phrase, e: Expr)
    requires Reads(sels, toks, pos, p, e) && Level(p) >= 1 && KindAt(toks, End(pos, p)) != Some(KOf)
    ensures End(pos, p) <= |toks| && AndAt(sels, toks, pos) == AndTail(sels, toks, e, End(pos, p))
    decreases p, 2
  {
    hide Reads, NotAt, End;
    ReadsWithin(sels, toks, pos, p, e);
    if p.Conj? {
      InfixReads(sels, toks, pos, p, e);
      AndReads(sels, toks, pos, p.l, e.l);
      NotReads(sels, toks, End(pos, p.l) + 1, p.r, e.r);
      AndStep(sels, toks, e.l, End(pos, p.l), e.r, End(pos, p));
    } else {
      NotReads(sels, toks, pos, p, e);
    }
  }

  lemma {:induction false} OrReads(sels: Selections, toks: seq<Token>, pos: nat, p: Phrase, e: Expr)
    requires Reads(sels, toks, pos, p, e)
    requires KindAt(toks, End(pos, p)) != Some(KOf) && KindAt(toks, End(pos, p)) != Some(KAnd)
    ensures End(pos, p) <= |toks| && OrAt(sels, toks, pos) == OrTail(sels, toks, e, End(pos, p))
    decreases p, 3
  {
    hide Reads, AndAt, End;
    ReadsWithin(sels, toks, pos, p, e);
    if p.Disj? {
      InfixReads(sels, toks, pos, p, e);
      OrReads(sels, toks, pos, p.l, e.l);
      AndReads(sels, toks, End(pos, p.l) + 1, p.r, e.r);
      assert AndTail(sels, toks, e.r, End(pos, p)) == Ok((e.r, End(pos, p)));
      OrStep(sels, toks, e.l, End(pos, p.l), e.r, End(pos, p));
    } else {
      AndReads(sels, toks, pos, p, e);
      assert AndTail(sels, toks, e, End(pos, p)) == Ok((e, End(pos, p)));
    }
  }

  // ----- whatever is read is a phrase -----

  lemma {:induction false} PrimarySound(sels: Selections, toks: seq<Token>, pos: nat) returns (p: Phrase)
    requires PrimaryAt(sels, toks, pos).Ok?
    ensures var (e, q) := PrimaryAt(sels, toks, pos).value; Derives(sels, p, toks[pos..q], e) && Level(p) == 3
    decreases |toks| - pos, 0
  {
    hide Derives;
    var t := toks[pos];
    var (e, q) := PrimaryAt(sels, toks, pos).value;
    if t.kind == KLparen {
      var inner := OrSound(sels, toks, pos + 1);
      hide OrAt;
      p := Parens(t, inner, toks[q - 1]);
      ParensDerives(sels, t, inner, toks[pos + 1..q - 1], e, toks[q - 1]);
      assert toks[pos..q] == [t] + toks[pos + 1..q - 1] + [toks[q - 1]];
    } else {
      p := AtomSound(sels, toks, pos);
    }
  }

  lemma AtomSound(sels: Selections, toks: seq<Token>, pos: nat) returns (p: Phrase)
    requires PrimaryAt(sels, toks, pos).Ok? && toks[pos].kind != KLparen
    ensures var (e, q) := PrimaryAt(sels, toks, pos).value; Derives(sels, p, toks[pos..q], e) && Level(p) == 3
  {
    hide OrAt, Quantify, Decimal.Value;
    var t, q := toks[pos], PrimaryAt(sels, toks, pos).value.1;
    if q == pos + 3 {
      p := Many(t, toks[pos + 1], toks[pos + 2]);
      assert toks[pos..q] == [t, toks[pos + 1], toks[pos + 2]];
    } else {
      p := Name(t);
      assert toks[pos..q] == [t];
    }
  }

  lemma {:induction false} NotSound(sels: Selections, toks: seq<Token>, pos: nat) returns (p: Phrase)
    requires NotAt(sels, toks, pos).Ok?
    ensures var (e, q) := NotAt(sels, toks, pos).value; Derives(sels, p, toks[pos..q], e) && Level(p) >= 2
    decreases |toks| - pos, 1
  {
    hide Derives, PrimaryAt;
    if KindAt(toks, pos) == Some(KNot) {
      var x := NotSound(sels, toks, pos + 1);
      var (e, q) := NotAt(sels, toks, pos + 1).value;
      p := Neg(toks[pos], x);
      NegDerives(sels, toks[pos], x, toks[pos + 1..q], e);
      assert toks[pos..q] == [toks[pos]] + toks[pos + 1..q];
    } else {
      p := PrimarySound(sels, toks, pos);
    }
  }

  lemma {:induction false} AndTailSound(sels: Selections, toks: seq<Token>, from: nat, pl: Phrase, left: Expr, pos: nat)
    returns (p: Phrase)
    requires from <= pos <= |toks| && Derives(sels, pl, toks[from..pos], left) && Level(pl) >= 1
    requires AndTail(sels, toks, left, pos).Ok?
    ensures var (e, q) := AndTail(sels, toks, left, pos).value; Derives(sels, p, toks[from..q], e) && Level(p) >= 1
    decreases |toks| - pos, 0
  {
    hide Derives, NotAt;
    if KindAt(toks, pos) != Some(KAnd) {
      p := pl;
    } else {
      var r := NotSound(sels, toks, pos + 1);
      var (e, q) := NotAt(sels, toks, pos + 1).value;
      ConjDerives(sels, pl, toks[from..pos], left, toks[pos], r, toks[pos + 1..q], e);
      assert toks[from..q] == toks[from..pos] + [toks[pos]] + toks[pos + 1..q];
      p := AndTailSound(sels, toks, from, Conj(pl, toks[pos], r), And(left, e), q);
    }
  }

  lemma {:induction false} AndSound(sels: Selections, toks: seq<Token>, pos: nat) returns (p: Phrase)
    requires AndAt(sels, toks, pos).Ok?
    ensures var (e, q) := AndAt(sels, toks, pos).value; Derives(sels, p, toks[pos..q], e) && Level(p) >= 1
    decreases |toks| - pos, 2
  {
    var l := NotSound(sels, toks, pos);
    var (e, q) := NotAt(sels, toks, pos).value;
    p := AndTailSound(sels, toks, pos, l, e, q);
  }

  lemma {:induction false} OrTailSound(sels: Selections, toks: seq<Token>, from: nat, pl: Phrase, left: Expr, pos: nat)
    returns (p: Phrase)
    requires from <= pos <= |toks| && Derives(sels, pl, toks[from..pos], left)
    requires OrTail(sels, toks, left, pos).Ok?
    ensures var (e, q) := OrTail(sels, toks, left, pos).value; Derives(sels, p, toks[from..q], e)
    decreases |toks| - pos, 0
  {
    hide Derives, AndAt;
    if KindAt(toks, pos) != Some(KOr) {
      p := pl;
    } else {
      var r := AndSound(sels, toks, pos + 1);
      var (e, q) := AndAt(sels, toks, pos + 1).value;
      DisjDerives(sels, pl, toks[from..pos], left, toks[pos], r, toks[pos + 1..q], e);
      assert toks[from..q] == toks[from..pos] + [toks[pos]] + toks[pos + 1..q];
      p := OrTailSound(sels, toks, from, Disj(pl, toks[pos], r), Or(left, e), q);
    }
  }

  lemma {:induction false} OrSound(sels: Selections, toks: seq<Token>, pos: nat) returns (p: Phrase)
    requires OrAt(sels, toks, pos).Ok?
    ensures var (e, q) := OrAt(sels, toks, pos).value; Derives(sels, p, toks[pos..q], e)
    decreases |toks| - pos, 3
  {
    var l := AndSound(sels, toks, pos);
    var (e, q) := AndAt(sels, toks, pos).value;
    p := OrTailSound(sels, toks, pos, l, e, q);
  }

  // ----- the aggregation tail -----

  /** Field names with commas between them. */
  predicate FieldList(toks: seq<Token>, pos: nat, fields: seq<string>) {
    && fields != [] && pos + 2 * |fields| - 1 <= |toks|
    && (forall i :: 0 <= i < |fields| ==> toks[pos + 2 * i].kind == KIdent && toks[pos + 2 * i].value == fields[i])
    && (forall i :: 0 <= i < |fields| - 1 ==> toks[pos + 2 * i + 1].kind == KComma)
  }

  /** `count ( ) [by field, ...] op number`, from `pos` to the end. */
  predicate TailAt(toks: seq<Token>, pos: nat, agg: Aggregation) {
    && |toks| == pos + 5 + 2 * |agg.groupBy|
    && toks[pos].kind == KIdent && Lower(toks[pos].value) == "count"
    && toks[pos + 1].kind == KLparen && toks[pos + 2].kind == KRparen
    && (agg.groupBy != [] ==>
          toks[pos + 3].kind == KIdent && Lower(toks[pos + 3].value) == "by" && FieldList(toks, pos + 4, agg.groupBy))
    && toks[|toks| - 2].kind == KCmp && toks[|toks| - 2].value == OpText(agg.op)
    && toks[|toks| - 1].kind == KNumber && IsNumeral(toks[|toks| - 1].value)
    && Decimal.Value(toks[|toks| - 1].value) == agg.threshold <= MAX_INT
  }

  lemma {:induction false} FieldsSound(toks: seq<Token>, pos: nat)
    requires FieldsAt(toks, pos).Ok?
    ensures var (fields, q) := FieldsAt(toks, pos).value;
            FieldList(toks, pos, fields) && q == pos + 2 * |fields| - 1 && KindAt(toks, q) != Some(KComma)
    decreases |toks| - pos
  {
    if KindAt(toks, pos + 1) == Some(KComma) {
      FieldsSound(toks, pos + 2);
      MoreFields(toks, pos, FieldsAt(toks, pos + 2).value.0);
    }
  }

  lemma MoreFields(toks: seq<Token>, pos: nat, rest: seq<string>)
    requires FieldList(toks, pos + 2, rest) && toks[pos].kind == KIdent && toks[pos + 1].kind == KComma
    ensures FieldList(toks, pos, [toks[pos].value] + rest)
  {
    var fields := [toks[pos].value] + rest;
    forall i | 0 <= i < |fields|
      ensures toks[pos + 2 * i].kind == KIdent && toks[pos + 2 * i].value == fields[i]
    {
      assert i > 0 ==> toks[pos + 2 + 2 * (i - 1)].value == rest[i - 1];
    }
    forall i | 0 <= i < |fields| - 1
      ensures toks[pos + 2 * i + 1].kind == KComma
    {
      assert i > 0 ==> toks[pos + 2 + 2 * (i - 1) + 1].kind == KComma;
    }
  }

  lemma FewerFields(toks: seq<Token>, pos: nat, fields: seq<string>)
    requires FieldList(toks, pos, fields)
    ensures fields != [] && pos < |toks| && toks[pos].kind == KIdent && toks[pos].value == fields[0]
    ensures |fields| > 1 ==> toks[pos + 1].kind == KComma && FieldList(toks, pos + 2, fields[1..])
  {
    assert toks[pos + 2 * 0].value == fields[0];
    if |fields| > 1 {
      assert toks[pos + 2 * 0 + 1].kind == KComma;
      forall i | 0 <= i < |fields| - 1
        ensures toks[pos + 2 + 2 * i].kind == KIdent && toks[pos + 2 + 2 * i].value == fields[1..][i]
      {
        assert toks[pos + 2 * (i + 1)].value == fields[i + 1];
      }
      forall i | 0 <= i < |fields| - 2
        ensures toks[pos + 2 + 2 * i + 1].kind == KComma
      {
        assert toks[pos + 2 * (i + 1) + 1].kind == KComma;
      }
    }
  }

  lemma {:induction false} FieldsComplete(toks: seq<Token>, pos: nat, fields: seq<string>)
    requires FieldList(toks, pos, fields) && KindAt(toks, pos + 2 * |fields| - 1) != Some(KComma)
    ensures FieldsAt(toks, pos) == Ok((fields, pos + 2 * |fields| - 1))
    decreases |fields|
  {
    hide FieldList;
    FewerFields(toks, pos, fields);
    if |fields| > 1 {
      FieldsComplete(toks, pos + 2, fields[1..]);
      assert [fields[0]] + fields[1..] == fields;
    } else {
      assert fields == [fields[0]];
    }
  }

  /** Operators and their texts are in step. */
  lemma OpsAndTexts(s: string, op: AggOp)
    ensures OpOf(s) == Some(op) <==> s == OpText(op)
  {
    assert ">"[0] != "<"[0] && |">"| != |">="| && |"<"| != |"<="| && "=="[0] != "!="[0];
    assert ">="[0] != "<="[0] && ">="[0] != "=="[0] && ">="[0] != "!="[0];
    assert "<="[0] != "=="[0] && "<="[0] != "!="[0] && |">"| != |"=="| && |"<"| != |"=="|;
  }

  lemma ComparisonExactly(toks: seq<Token>, fields: seq<string>, pos: nat, agg: Aggregation)
    ensures ComparisonAt(toks, fields, pos) == Ok((agg, |toks|)) <==>
              && |toks| == pos + 2 && agg.groupBy == fields
              && toks[pos].kind == KCmp && toks[pos].value == OpText(agg.op)
              && toks[pos + 1].kind == KNumber && IsNumeral(toks[pos + 1].value)
              && Decimal.Value(toks[pos + 1].value) == agg.threshold <= MAX_INT
  {
    hide OpOf, OpText, Decimal.Value;
    if pos < |toks| {
      OpsAndTexts(toks[pos].value, agg.op);
      if OpOf(toks[pos].value).Some? {
        OpsAndTexts(toks[pos].value, OpOf(toks[pos].value).value);
      }
    }
  }

  lemma TailExactly(toks: seq<Token>, pos: nat, agg: Aggregation)
    ensures AggregationAt(toks, pos) == Ok((agg, |toks|)) <==> TailAt(toks, pos, agg)
  {
    if AggregationAt(toks, pos) == Ok((agg, |toks|)) {
      TailSound(toks, pos, agg);
    }
    if TailAt(toks, pos, agg) {
      TailComplete(toks, pos, agg);
    }
  }

  lemma TailSound(toks: seq<Token>, pos: nat, agg: Aggregation)
    requires AggregationAt(toks, pos) == Ok((agg, |toks|))
    ensures TailAt(toks, pos, agg)
  {
    hide ComparisonAt, FieldsAt, FieldList, Lower, OpText, Decimal.Value;
    if KindAt(toks, pos + 3) == Some(KIdent) && Lower(toks[pos + 3].value) == "by" {
      FieldsSound(toks, pos + 4);
      var (fields, q) := FieldsAt(toks, pos + 4).value;
      ComparisonExactly(toks, fields, q, agg);
      ListNotEmpty(toks, pos + 4, fields);
    } else {
      ComparisonExactly(toks, [], pos + 3, agg);
    }
  }

  lemma ListNotEmpty(toks: seq<Token>, pos: nat, fields: seq<string>)
    requires FieldList(toks, pos, fields)
    ensures fields != []
  {
  }

  lemma TailComplete(toks: seq<Token>, pos: nat, agg: Aggregation)
    requires TailAt(toks, pos, agg)
    ensures AggregationAt(toks, pos) == Ok((agg, |toks|))
  {
    hide ComparisonAt, FieldsAt, FieldList, Lower, OpText, Decimal.Value;
    if agg.groupBy != [] {
      FieldsComplete(toks, pos + 4, agg.groupBy);
      ComparisonExactly(toks, agg.groupBy, |toks| - 2, agg);
    } else {
      ComparisonExactly(toks, [], pos + 3, agg);
    }
  }

  // ----- whole conditions -----

  ghost predicate Derived(sels: Selections, ts: seq<Token>, e: Expr) { exists p :: Derives(sels, p, ts, e) }

  predicate NearForm(toks: seq<Token>) {
    |toks| == 3 && toks[0].kind == KIdent && toks[1].kind == KNear && toks[2].kind == KIdent
  }

  /** What a condition says: a temporal join of two selections, a phrase, or a
      phrase with an aggregation tail behind a pipe. */
  ghost predicate Says(sels: Selections, toks: seq<Token>, e: Expr, agg: Option<Aggregation>) {
    if NearForm(toks) then
      && agg.None? && toks[0].value in sels && toks[2].value in sels
      && e == Near(sels[toks[0].value], sels[toks[2].value], 0)
    else if agg.None? then Derived(sels, toks, e)
    else
      exists k :: 0 <= k < |toks| && toks[k].kind == KPipe && Derived(sels, toks[..k], e) && TailAt(toks, k + 1, agg.value)
  }

  lemma PrefixReads(sels: Selections, toks: seq<Token>, k: nat, e: Expr)
    requires k <= |toks| && Derived(sels, toks[..k], e) && (k < |toks| ==> toks[k].kind == KPipe)
    ensures OrAt(sels, toks, 0) == Ok((e, k))
  {
    hide OrAt, Grammatical, MeaningOf, Yield;
    var p :| Derives(sels, p, toks[..k], e);
    assert Stands(toks, 0, Yield(p));
    OrReads(sels, toks, 0, p, e);
    assert OrTail(sels, toks, e, k) == Ok((e, k));
  }

  /** The parser accepts exactly what the grammar says, as what it says. */
  lemma ConditionExactly(sels: Selections, toks: seq<Token>, e: Expr, agg: Option<Aggregation>)
    ensures Condition(sels, toks) == Ok((e, agg)) <==> Says(sels, toks, e, agg)
  {
    hide OrAt, AggregationAt, TailAt, Derived;
    if !NearForm(toks) {
      if Condition(sels, toks) == Ok((e, agg)) {
        AcceptedSays(sels, toks, e, agg);
      }
      if Says(sels, toks, e, agg) {
        SaidIsAccepted(sels, toks, e, agg);
      }
    }
  }

  lemma AcceptedSays(sels: Selections, toks: seq<Token>, e: Expr, agg: Option<Aggregation>)
    requires !NearForm(toks) && Condition(sels, toks) == Ok((e, agg))
    ensures Says(sels, toks, e, agg)
  {
    hide OrAt, AggregationAt, TailAt, Derives;
    var q := OrAt(sels, toks, 0).value.1;
    var p := OrSound(sels, toks, 0);
    assert toks[0..q] == toks[..q] && toks[..|toks|] == toks;
    assert Derived(sels, toks[..q], e);
    if agg.Some? {
      TailExactly(toks, q + 1, agg.value);
    }
  }

  lemma SaidIsAccepted(sels: Selections, toks: seq<Token>, e: Expr, agg: Option<Aggregation>)
    requires !NearForm(toks) && Says(sels, toks, e, agg)
    ensures Condition(sels, toks) == Ok((e, agg))
  {
    hide OrAt, AggregationAt, TailAt, Derived;
    if agg.None? {
      assert toks[..|toks|] == toks;
      PrefixReads(sels, toks, |toks|, e);
    } else {
      var k :| 0 <= k < |toks| && toks[k].kind == KPipe && Derived(sels, toks[..k], e) && TailAt(toks, k + 1, agg.value);
      PrefixReads(sels, toks, k, e);
      TailExactly(toks, k + 1, agg.value);
    }
  }

  /** The same for texts. */
  lemma ParseExactly(sels: Selections, src: string, e: Expr, agg: Option<Aggregation>)
    ensures Parse(sels, src) == Ok((e, agg)) <==> Lex(src).Ok? && Says(sels, Lex(src).value, e, agg)
  {
    hide Condition, Says, Lex;
    if Lex(src).Ok? {
      ConditionExactly(sels, Lex(src).value, e, agg);
    }
  }

  /** `a or b and c` is `a or (b and c)`, and `a and b and c` is `(a and b) and c`. */
  lemma Precedence(sels: Selections, a: Token, b: Token, c: Token, or_: Token, and_: Token)
    requires a.kind == b.kind == c.kind == KIdent && or_.kind == KOr && and_.kind == KAnd
    requires a.value in sels && b.value in sels && c.value in sels
    ensures var x, y, z := Sel(a.value, sels[a.value]), Sel(b.value, sels[b.value]), Sel(c.value, sels[c.value]);
            && Condition(sels, [a, or_, b, and_, c]) == Ok((Or(x, And(y, z)), None))
            && Condition(sels, [a, and_, b, or_, c]) == Ok((Or(And(x, y), z), None))
            && Condition(sels, [a, and_, b, and_, c]) == Ok((And(And(x, y), z), None))
  {
    hide Condition, Derives;
    var x, y, z := Sel(a.value, sels[a.value]), Sel(b.value, sels[b.value]), Sel(c.value, sels[c.value]);
    var n, m, k := Name(a), Name(b), Name(c);
    NameDerives(sels, a);
    NameDerives(sels, b);
    NameDerives(sels, c);
    ConjDerives(sels, m, [b], y, and_, k, [c], z);
    DisjDerives(sels, n, [a], x, or_, Conj(m, and_, k), [b] + [and_] + [c], And(y, z));
    assert [a] + [or_] + ([b] + [and_] + [c]) == [a, or_, b, and_, c];
    ConditionExactly(sels, [a, or_, b, and_, c], Or(x, And(y, z)), None);
    ConjDerives(sels, n, [a], x, and_, m, [b], y);
    DisjDerives(sels, Conj(n, and_, m), [a] + [and_] + [b], And(x, y), or_, k, [c], z);
    assert [a] + [and_] + [b] + [or_] + [c] == [a, and_, b, or_, c];
    ConditionExactly(sels, [a, and_, b, or_, c], Or(And(x, y), z), None);
    ConjDerives(sels, Conj(n, and_, m), [a] + [and_] + [b], And(x, y), and_, k, [c], z);
    assert [a] + [and_] + [b] + [and_] + [c] == [a, and_, b, and_, c];
    ConditionExactly(sels, [a, and_, b, and_, c], And(And(x, y), z), None);
  }

  // ----- what a phrase holds of -----

  /** The truth of a phrase, read off its words. */
  ghost predicate Holds(sels: Selections, p: Phrase, env: Env) {
    match p
    case Name(word) => word.value in sels && Matches(sels[word.value], env)
    case Many(count, _, target) =>
      && CountOf(count).Some? && Names(sels, TargetOf(target)).Ok?
      && ManyHold(sels, CountOf(count).value, Names(sels, TargetOf(target)).value, env)
    case Parens(_, inner, _) => Holds(sels, inner, env)
    case Neg(_, x) => !Holds(sels, x, env)
    case Conj(l, _, r) => Holds(sels, l, env) && Holds(sels, r, env)
    case Disj(l, _, r) => Holds(sels, l, env) || Holds(sels, r, env)
  }

  /** All of the named selections match, or as many as asked, all if that is more
      than there are. */
  ghost predicate ManyHold(sels: Selections, c: Count, names: set<string>, env: Env) {
    var hit := |MatchingNames(sels, names, env)|;
    match c
    case All => forall n :: n in names && n in sels ==> Matches(sels[n], env)
    case AtLeast(k) => hit >= k || hit == |names|
  }

  /** Evaluating what the parser built is reading the phrase. */
  lemma {:induction false} MeaningHolds(sels: Selections, p: Phrase, e: Expr, env: Env)
    requires WellNamed(sels) && Grammatical(p) && MeaningOf(sels, p) == Some(e)
    ensures Eval(e, env) <==> Holds(sels, p, env)
  {
    match p
    case Name(_) =>
    case Many(count, _, target) => ManyMeaning(sels, CountOf(count).value, TargetOf(target), env);
    case Parens(_, inner, _) => MeaningHolds(sels, inner, e, env);
    case Neg(_, x) => MeaningHolds(sels, x, e.x, env);
    case Conj(l, _, r) =>
      MeaningHolds(sels, l, e.l, env);
      MeaningHolds(sels, r, e.r, env);
    case Disj(l, _, r) =>
      MeaningHolds(sels, l, e.l, env);
      MeaningHolds(sels, r, e.r, env);
  }

  lemma ManyMeaning(sels: Selections, c: Count, t: Target, env: Env)
    requires WellNamed(sels) && (c.AtLeast? ==> c.n >= 1) && Quantify(sels, c, t).Ok?
    ensures Names(sels, t).Ok?
    ensures Eval(Quantify(sels, c, t).value, env) <==> ManyHold(sels, c, Names(sels, t).value, env)
  {
    hide Matches, Eval, MatchingNames, Resolve, Label;
    QuantifierMeaning(sels, c, t, env);
    HowManyMatch(sels, Names(sels, t).value, env);
  }
}
