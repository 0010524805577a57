/** The recursive-descent parser of Sigma conditions (condParser in
    pkg/ruleast/condition.go). The `At` functions give the meaning of each
    parsing method at a token position; class `CondParser` advances a position
    field through the same tokens. */
module CondParser {
  import opened Wrappers
  import opened Collections
  import opened RuleAst
  import opened CondLexer
  import Decimal
  import opened StringOrder

  type Selections = map<string, Selection>

  /** Selections are filed under their own names. */
  predicate WellNamed(sels: Selections) { forall n :: n in sels ==> sels[n].name == n }

  datatype ParseError =
    | Lexical(e: LexError)
    | UnexpectedEnd
    | MissingParen
    | BadCount(value: string)
    | ExpectedOf
    | ExpectedTarget
    | UnknownSelection(value: string)
    | BadWildcard(value: string)
    | NoMatch(value: string)
    | UnexpectedToken(value: string)
    | NearNotBinary
    | ExpectedFunction(got: Option<string>)
    | UnsupportedFunction(value: string)
    | ExpectedOpen
    | ExpectedClose
    | ExpectedField
    | ExpectedComparison
    | UnknownComparison(value: string)
    | ExpectedNumber(value: string)
    | BadThreshold(value: string)

  /** A parsed value and the position after it. */
  type Parsed<T> = Result<(T, nat), ParseError>

  const MAX_INT: nat := 0x7FFF_FFFF_FFFF_FFFF

  /** A quantifier's count: `all`, or a number (`any` is 1). */
  datatype Count = All | AtLeast(n: nat)

  datatype Target = Them | Named(name: string)

  // ----- quantifiers -----

  function Names(sels: Selections, t: Target): (r: Result<set<string>, ParseError>)
    ensures r.Ok? ==> r.value <= sels.Keys
  {
    match t
    case Them => Ok(sels.Keys)
    case Named(pattern) =>
      if '*' !in pattern then
        if pattern in sels then Ok({pattern}) else Err(UnknownSelection(pattern))
      else if pattern[|pattern| - 1] != '*' || '*' in pattern[..|pattern| - 1] then Err(BadWildcard(pattern))
      else Ok(set n | n in sels && pattern[..|pattern| - 1] <= n)
  }

  function TargetText(t: Target): string { if t.Them? then "them" else t.name }

  function CountText(c: Count): string { if c.All? then "all" else Decimal.Print(c.n) }

  function Label(c: Count, t: Target): string { CountText(c) + (" of " + TargetText(t)) }

  function Threshold(c: Count, available: nat): nat {
    if c.All? || c.n > available then available else c.n
  }

  ghost function Resolve(sels: Selections, names: set<string>): (targets: seq<Selection>)
    requires names <= sels.Keys
    ensures |targets| == |names|
  {
    var order := Listing(names);
    assert forall i :: 0 <= i < |order| ==> order[i] in Elements(order);
    seq(|order|, i requires 0 <= i < |order| => sels[order[i]])
  }

  /** The quantifier node for a count and a target. */
  ghost function Quantify(sels: Selections, c: Count, t: Target): Result<Expr, ParseError> {
    var names := Names(sels, t);
    if names.Err? then Err(names.error)
    else if names.value == {} then Err(NoMatch(TargetText(t)))
    else Ok(Quantifier(Threshold(c, |names.value|), Resolve(sels, names.value), Label(c, t)))
  }

  // ----- the grammar -----

  function KindAt(toks: seq<Token>, pos: nat): Option<Kind> {
    if pos < |toks| then Some(toks[pos].kind) else None
  }

  ghost function OrAt(sels: Selections, toks: seq<Token>, pos: nat): (r: Parsed<Expr>)
    ensures r.Ok? ==> pos < r.value.1 <= |toks|
    decreases |toks| - pos, 3
  {
    var l := AndAt(sels, toks, pos);
    if l.Err? then l else OrTail(sels, toks, l.value.0, l.value.1)
  }

  ghost function OrTail(sels: Selections, toks: seq<Token>, left: Expr, pos: nat): (r: Parsed<Expr>)
    requires pos <= |toks|
    ensures r.Ok? ==> pos <= r.value.1 <= |toks|
    decreases |toks| - pos, 0
  {
    if KindAt(toks, pos) != Some(KOr) then Ok((left, pos))
    else
      var r := AndAt(sels, toks, pos + 1);
      if r.Err? then r else OrTail(sels, toks, Or(left, r.value.0), r.value.1)
  }

  ghost function AndAt(sels: Selections, toks: seq<Token>, pos: nat): (r: Parsed<Expr>)
    ensures r.Ok? ==> pos < r.value.1 <= |toks|
    decreases |toks| - pos, 2
  {
    var l := NotAt(sels, toks, pos);
    if l.Err? then l else AndTail(sels, toks, l.value.0, l.value.1)
  }

  ghost function AndTail(sels: Selections, toks: seq<Token>, left: Expr, pos: nat): (r: Parsed<Expr>)
    requires pos <= |toks|
    ensures r.Ok? ==> pos <= r.value.1 <= |toks|
    decreases |toks| - pos, 0
  {
    if KindAt(toks, pos) != Some(KAnd) then Ok((left, pos))
    else
      var r := NotAt(sels, toks, pos + 1);
      if r.Err? then r else AndTail(sels, toks, And(left, r.value.0), r.value.1)
  }

  ghost function NotAt(sels: Selections, toks: seq<Token>, pos: nat): (r: Parsed<Expr>)
    ensures r.Ok? ==> pos < r.value.1 <= |toks|
    decreases |toks| - pos, 1
  {
    if KindAt(toks, pos) == Some(KNot) then
      var x := NotAt(sels, toks, pos + 1);
      if x.Err? then x else Ok((Not(x.value.0), x.value.1))
    else PrimaryAt(sels, toks, pos)
  }

  ghost function PrimaryAt(sels: Selections, toks: seq<Token>, pos: nat): (r: Parsed<Expr>)
    ensures r.Ok? ==> pos < r.value.1 <= |toks|
    decreases |toks| - pos, 0
  {
    if pos >= |toks| then Err(UnexpectedEnd)
    else
      var t := toks[pos];
      match t.kind
      case KLparen =>
        var inner := OrAt(sels, toks, pos + 1);
        if inner.Err? then inner
        else if KindAt(toks, inner.value.1) != Some(KRparen) then Err(MissingParen)
        else Ok((inner.value.0, inner.value.1 + 1))
      case KNumber =>
        if !IsNumeral(t.value) || !(1 <= Decimal.Value(t.value) <= MAX_INT) then Err(BadCount(t.value))
        else QuantifierAt(sels, toks, AtLeast(Decimal.Value(t.value)), pos + 1)
      case KIdent =>
        var w := Lower(t.value);
        if (w == "all" || w == "any") && KindAt(toks, pos + 1) == Some(KOf) then
          QuantifierAt(sels, toks, if w == "all" then All else AtLeast(1), pos + 1)
        else if t.value !in sels then Err(UnknownSelection(t.value))
        else Ok((Sel(t.value, sels[t.value]), pos + 1))
      case _ => Err(UnexpectedToken(t.value))
  }

  /** The `of <target>` tail. */
  ghost function QuantifierAt(sels: Selections, toks: seq<Token>, c: Count, pos: nat): (r: Parsed<Expr>)
    ensures r.Ok? ==> r.value.1 == pos + 2 <= |toks|
  {
    if KindAt(toks, pos) != Some(KOf) then Err(ExpectedOf)
    else if pos + 1 >= |toks| then Err(ExpectedTarget)
    else
      var t := toks[pos + 1];
      if t.kind != KThem && t.kind != KIdent then Err(UnexpectedToken(t.value))
      else
        var q := Quantify(sels, c, if t.kind == KThem then Them else Named(t.value));
        if q.Err? then Err(q.error) else Ok((q.value, pos + 2))
  }

  // ----- the aggregation tail -----

  function OpOf(s: string): Option<AggOp> {
    if s == ">" then Some(GT) else if s == ">=" then Some(GTE)
    else if s == "<" then Some(LT) else if s == "<=" then Some(LTE)
    else if s == "==" then Some(EQ) else if s == "!=" then Some(NE) else None
  }

  /** Comma-separated identifiers. */
  function FieldsAt(toks: seq<Token>, pos: nat): (r: Parsed<seq<string>>)
    ensures r.Ok? ==> pos < r.value.1 <= |toks|
    decreases |toks| - pos
  {
    if KindAt(toks, pos) != Some(KIdent) then Err(ExpectedField)
    else if KindAt(toks, pos + 1) != Some(KComma) then Ok(([toks[pos].value], pos + 1))
    else
      var more := FieldsAt(toks, pos + 2);
      if more.Err? then more else Ok(([toks[pos].value] + more.value.0, more.value.1))
  }

  function Prepend(fields: seq<string>, r: Parsed<seq<string>>): Parsed<seq<string>> {
    if r.Err? then r else Ok((fields + r.value.0, r.value.1))
  }

  lemma PrependNothing(r: Parsed<seq<string>>)
    ensures Prepend([], r) == r
  {
    assert r.Ok? ==> [] + r.value.0 == r.value.0;
  }

  lemma PrependOne(fields: seq<string>, field: string, r: Parsed<seq<string>>)
    ensures Prepend(fields, Prepend([field], r)) == Prepend(fields + [field], r)
  {
    assert r.Ok? ==> fields + ([field] + r.value.0) == fields + [field] + r.value.0;
  }

  function ComparisonAt(toks: seq<Token>, fields: seq<string>, pos: nat): (r: Parsed<Aggregation>)
    ensures r.Ok? ==> r.value.1 == pos + 2 <= |toks|
  {
    if KindAt(toks, pos) != Some(KCmp) then Err(ExpectedComparison)
    else if OpOf(toks[pos].value).None? then Err(UnknownComparison(toks[pos].value))
    else if KindAt(toks, pos + 1) != Some(KNumber) then Err(ExpectedNumber(toks[pos].value))
    else
      var v := toks[pos + 1].value;
      if !IsNumeral(v) || Decimal.Value(v) > MAX_INT then Err(BadThreshold(v))
      else Ok((Aggregation(fields, OpOf(toks[pos].value).value, Decimal.Value(v)), pos + 2))
  }

  function AggregationAt(toks: seq<Token>, pos: nat): (r: Parsed<Aggregation>)
    ensures r.Ok? ==> pos < r.value.1 <= |toks|
  {
    if pos >= |toks| then Err(ExpectedFunction(None))
    else if toks[pos].kind != KIdent then Err(ExpectedFunction(Some(toks[pos].value)))
    else if Lower(toks[pos].value) != "count" then Err(UnsupportedFunction(toks[pos].value))
    else if KindAt(toks, pos + 1) != Some(KLparen) then Err(ExpectedOpen)
    else if KindAt(toks, pos + 2) != Some(KRparen) then Err(ExpectedClose)
    else if KindAt(toks, pos + 3) == Some(KIdent) && Lower(toks[pos + 3].value) == "by" then
      var fields := FieldsAt(toks, pos + 4);
      if fields.Err? then Err(fields.error) else ComparisonAt(toks, fields.value.0, fields.value.1)
    else ComparisonAt(toks, [], pos + 3)
  }

  /** A whole token sequence. */
  ghost function Condition(sels: Selections, toks: seq<Token>): Result<(Expr, Option<Aggregation>), ParseError> {
    if |toks| == 3 && toks[0].kind == KIdent && toks[1].kind == KNear && toks[2].kind == KIdent then
      if toks[0].value !in sels then Err(UnknownSelection(toks[0].value))
      else if toks[2].value !in sels then Err(UnknownSelection(toks[2].value))
      else Ok((Near(sels[toks[0].value], sels[toks[2].value], 0), None))
    else
      var e := OrAt(sels, toks, 0);
      if e.Err? then Err(e.error)
      else if KindAt(toks, e.value.1) == Some(KNear) then Err(NearNotBinary)
      else if KindAt(toks, e.value.1) == Some(KPipe) then
        var agg := AggregationAt(toks, e.value.1 + 1);
        if agg.Err? then Err(agg.error)
        else if agg.value.1 != |toks| then Err(UnexpectedToken(toks[agg.value.1].value))
        else Ok((e.value.0, Some(agg.value.0)))
      else if e.value.1 != |toks| then Err(UnexpectedToken(toks[e.value.1].value))
      else Ok((e.value.0, None))
  }

  ghost function Parse(sels: Selections, src: string): Result<(Expr, Option<Aggregation>), ParseError> {
    var toks := Lex(src);
    if toks.Err? then Err(Lexical(toks.error)) else Condition(sels, toks.value)
  }

  // ----- the parser itself -----

  predicate ByName(s: seq<Selection>) { forall i, j :: 0 <= i < j < |s| ==> !Less(s[j].name, s[i].name) }

  /** Stable sorting by name (sort.SliceStable), by insertion. */
  method SortByName(targets: seq<Selection>) returns (sorted: seq<Selection>)
    ensures |sorted| == |targets| && multiset(sorted) == multiset(targets) && ByName(sorted)
  {
    hide Less;
    sorted := [];
    for k := 0 to |targets|
      invariant |sorted| == k && multiset(sorted) == multiset(targets[..k]) && ByName(sorted)
    {
      sorted := InsertByName(sorted, targets[k]);
      assert targets[..k + 1] == targets[..k] + [targets[k]];
    }
    assert targets[..|targets|] == targets;
  }

  method InsertByName(s: seq<Selection>, x: Selection) returns (r: seq<Selection>)
    requires ByName(s)
    ensures |r| == |s| + 1 && multiset(r) == multiset(s) + multiset{x} && ByName(r)
  {
    hide Less;
    var p := |s|;
    while p > 0 && Less(x.name, s[p - 1].name)
      invariant 0 <= p <= |s| && forall i :: p <= i < |s| ==> Less(x.name, s[i].name)
    {
      p := p - 1;
    }
    InsertSorted(s, x, p);
    InsertMultiset(s, x, p);
    r := s[..p] + [x] + s[p..];
  }

  function NamesOf(s: seq<Selection>): (order: seq<string>)
    ensures |order| == |s| && forall i :: 0 <= i < |s| ==> order[i] == s[i].name
  {
    seq(|s|, i requires 0 <= i < |s| => s[i].name)
  }

  /** `s` holds the selections filed under `names`, each once. */
  predicate Lists(sels: Selections, names: set<string>, s: seq<Selection>)
    requires names <= sels.Keys
  {
    && |s| == |names|
    && (forall i :: 0 <= i < |s| ==> s[i].name in names && s[i] == sels[s[i].name])
    && (forall n :: n in names ==> sels[n] in s)
  }

  lemma ListedNames(sels: Selections, names: set<string>, s: seq<Selection>)
    requires WellNamed(sels) && names <= sels.Keys && Lists(sels, names, s)
    ensures Elements(NamesOf(s)) == names
  {
    forall n | n in names
      ensures n in NamesOf(s)
    {
      assert sels[n] in s;
      var i :| 0 <= i < |s| && s[i] == sels[n];
      assert NamesOf(s)[i] == n;
    }
  }

  /** Sorting the selections filed under `names`, in whatever order the map
      yielded them, gives the one listing in name order. */
  lemma SortedTargets(sels: Selections, names: set<string>, found: seq<Selection>, sorted: seq<Selection>)
    requires WellNamed(sels) && names <= sels.Keys && Lists(sels, names, found)
    requires |sorted| == |found| && multiset(sorted) == multiset(found)
    requires ByName(sorted)
    ensures sorted == Resolve(sels, names)
  {
    hide Less;
    SameMembers(sorted, found);
    forall i | 0 <= i < |sorted|
      ensures sorted[i].name in names && sorted[i] == sels[sorted[i].name]
    {
      assert sorted[i] in found;
    }
    assert Lists(sels, names, sorted);
    ListedNames(sels, names, sorted);
    SortedIsListing(NamesOf(sorted), names);
  }

  lemma InsertSorted(s: seq<Selection>, x: Selection, p: nat)
    requires p <= |s| && ByName(s)
    requires forall i :: p <= i < |s| ==> Less(x.name, s[i].name)
    requires p > 0 ==> !Less(x.name, s[p - 1].name)
    ensures ByName(s[..p] + [x] + s[p..])
  {
    hide Less;
    var t := s[..p] + [x] + s[p..];
    forall i, j | 0 <= i < j < |t|
      ensures !Less(t[j].name, t[i].name)
    {
      if i == p {
        LessAsymmetric(x.name, s[j - 1].name);
      } else if j == p && i < p - 1 {
        NotLessTransitive(s[i].name, s[p - 1].name, x.name);
      }
    }
  }

  /** Collects the selections with a name prefix, in the map's arbitrary order. */
  method Collect(sels: Selections, prefix: string) returns (out: seq<Selection>)
    requires WellNamed(sels)
    ensures Lists(sels, (set n | n in sels && prefix <= n), out)
  {
    hide Lists;
    out := [];
    var todo := sels.Keys;
    ghost var names := set n | n in sels && prefix <= n;
    assert names - todo == {};
    ListsNothing(sels);
    while todo != {}
      invariant todo <= sels.Keys && Lists(sels, names - todo, out)
      decreases |todo|
    {
      var name :| name in todo;
      ghost var done := names - todo;
      todo := todo - {name};
      if prefix <= name {
        assert names - todo == done + {name};
        ListsMore(sels, done, out, name);
        out := out + [sels[name]];
      } else {
        assert names - todo == done;
      }
    }
    assert names - {} == names;
  }

  lemma ListsNothing(sels: Selections)
    ensures Lists(sels, {}, [])
  {
  }

  lemma ListsMore(sels: Selections, names: set<string>, s: seq<Selection>, name: string)
    requires WellNamed(sels) && names <= sels.Keys && Lists(sels, names, s) && name in sels && name !in names
    ensures Lists(sels, names + {name}, s + [sels[name]])
  {
    var s' := s + [sels[name]];
    forall n | n in names + {name}
      ensures sels[n] in s'
    {
      if n == name {
        assert s'[|s|] == sels[name];
      } else {
        var i :| 0 <= i < |s| && s[i] == sels[n];
        assert s'[i] == sels[n];
      }
    }
  }

  /** The selections a target names, in an arbitrary order. */
  method MatchSelections(sels: Selections, t: Target) returns (r: Result<seq<Selection>, ParseError>)
    requires WellNamed(sels)
    ensures r.Ok? <==> Names(sels, t).Ok?
    ensures r.Err? ==> r.error == Names(sels, t).error
    ensures r.Ok? ==> Lists(sels, Names(sels, t).value, r.value)
  {
    if t.Them? {
      assert sels.Keys == set n | n in sels && "" <= n;
      var all := Collect(sels, "");
      return Ok(all);
    }
    if '*' !in t.name {
      if t.name !in sels {
        return Err(UnknownSelection(t.name));
      }
      assert sels[t.name] in [sels[t.name]];
      return Ok([sels[t.name]]);
    }
    if t.name[|t.name| - 1] != '*' || '*' in t.name[..|t.name| - 1] {
      return Err(BadWildcard(t.name));
    }
    var out := Collect(sels, t.name[..|t.name| - 1]);
    return Ok(out);
  }

  class CondParser {
    const toks: seq<Token>
    const sels: Selections
    var pos: nat

    constructor (tokens: seq<Token>, selections: Selections)
      ensures toks == tokens && sels == selections && pos == 0
    {
      toks, sels, pos := tokens, selections, 0;
    }

    /** The method's result and final position are what `spec` says. */
    ghost predicate Follows<T>(r: Result<T, ParseError>, spec: Parsed<T>)
      reads this
    {
      && (r.Ok? <==> spec.Ok?)
      && (r.Ok? ==> r.value == spec.value.0 && pos == spec.value.1)
      && (r.Err? ==> r.error == spec.error)
    }

    method ParseOr() returns (r: Result<Expr, ParseError>)
      requires WellNamed(sels)
      modifies this
      ensures Follows(r, OrAt(sels, toks, old(pos)))
      decreases |toks| - pos, 3
    {
      r := ParseAnd();
      if r.Err? {
        return;
      }
      var left := r.value;
      while KindAt(toks, pos) == Some(KOr)
        invariant old(pos) < pos <= |toks|
        invariant OrAt(sels, toks, old(pos)) == OrTail(sels, toks, left, pos)
        decreases |toks| - pos
      {
        pos := pos + 1;
        r := ParseAnd();
        if r.Err? {
          return;
        }
        left := Or(left, r.value);
      }
      return Ok(left);
    }

    method ParseAnd() returns (r: Result<Expr, ParseError>)
      requires WellNamed(sels)
      modifies this
      ensures Follows(r, AndAt(sels, toks, old(pos)))
      decreases |toks| - pos, 2
    {
      r := ParseNot();
      if r.Err? {
        return;
      }
      var left := r.value;
      while KindAt(toks, pos) == Some(KAnd)
        invariant old(pos) < pos <= |toks|
        invariant AndAt(sels, toks, old(pos)) == AndTail(sels, toks, left, pos)
        decreases |toks| - pos
      {
        pos := pos + 1;
        r := ParseNot();
        if r.Err? {
          return;
        }
        left := And(left, r.value);
      }
      return Ok(left);
    }

    method ParseNot() returns (r: Result<Expr, ParseError>)
      requires WellNamed(sels)
      modifies this
      ensures Follows(r, NotAt(sels, toks, old(pos)))
      decreases |toks| - pos, 1
    {
      if KindAt(toks, pos) == Some(KNot) {
        pos := pos + 1;
        r := ParseNot();
        if r.Err? {
          return;
        }
        return Ok(Not(r.value));
      }
      r := ParsePrimary();
    }

    method ParsePrimary() returns (r: Result<Expr, ParseError>)
      requires WellNamed(sels)
      modifies this
      ensures Follows(r, PrimaryAt(sels, toks, old(pos)))
      decreases |toks| - pos, 0
    {
      if pos >= |toks| {
        return Err(UnexpectedEnd);
      }
      var t := toks[pos];
      pos := pos + 1;
      match t.kind {
        case KLparen =>
          r := ParseOr();
          if r.Err? {
            return;
          }
          if KindAt(toks, pos) != Some(KRparen) {
            return Err(MissingParen);
          }
          pos := pos + 1;
        case KNumber =>
          if !IsNumeral(t.value) || !(1 <= Decimal.Value(t.value) <= MAX_INT) {
            return Err(BadCount(t.value));
          }
          r := ParseQuantifier(AtLeast(Decimal.Value(t.value)));
        case KIdent =>
          var w := Lower(t.value);
          if w == "all" || w == "any" {
            if KindAt(toks, pos) == Some(KOf) {
              var count := All;
              if w == "any" {
                count := AtLeast(1);
              }
              r := ParseQuantifier(count);
              return;
            }
          }
          if t.value !in sels {
            return Err(UnknownSelection(t.value));
          }
          return Ok(Sel(t.value, sels[t.value]));
        case _ =>
          return Err(UnexpectedToken(t.value));
      }
    }

    method ParseQuantifier(count: Count) returns (r: Result<Expr, ParseError>)
      requires WellNamed(sels)
      modifies this
      ensures Follows(r, QuantifierAt(sels, toks, count, old(pos)))
    {
      if KindAt(toks, pos) != Some(KOf) {
        return Err(ExpectedOf);
      }
      pos := pos + 1;
      if pos >= |toks| {
        return Err(ExpectedTarget);
      }
      var t := toks[pos];
      pos := pos + 1;
      var target := Them;
      match t.kind {
        case KThem =>
        case KIdent => target := Named(t.value);
        case _ => return Err(UnexpectedToken(t.value));
      }
      var found := MatchSelections(sels, target);
      if found.Err? {
        return Err(found.error);
      }
      if |found.value| == 0 {
        return Err(NoMatch(TargetText(target)));
      }
      var targets := SortByName(found.value);
      SortedTargets(sels, Names(sels, target).value, found.value, targets);
      var threshold := Threshold(count, |targets|);
      return Ok(Quantifier(threshold, targets, Label(count, target)));
    }

    method ParseAggregation() returns (r: Result<Aggregation, ParseError>)
      modifies this
      ensures Follows(r, AggregationAt(toks, old(pos)))
    {
      hide Lower, FieldsAt, ComparisonAt;
      if pos >= |toks| {
        return Err(ExpectedFunction(None));
      }
      if toks[pos].kind != KIdent {
        return Err(ExpectedFunction(Some(toks[pos].value)));
      }
      if Lower(toks[pos].value) != "count" {
        return Err(UnsupportedFunction(toks[pos].value));
      }
      pos := pos + 1;
      if KindAt(toks, pos) != Some(KLparen) {
        return Err(ExpectedOpen);
      }
      pos := pos + 1;
      if KindAt(toks, pos) != Some(KRparen) {
        return Err(ExpectedClose);
      }
      pos := pos + 1;
      var fields := [];
      if KindAt(toks, pos) == Some(KIdent) && Lower(toks[pos].value) == "by" {
        pos := pos + 1;
        var listed := ParseGroupFields();
        if listed.Err? {
          return Err(listed.error);
        }
        fields := listed.value;
      }
      r := ParseComparison(fields);
    }

    method ParseComparison(fields: seq<string>) returns (r: Result<Aggregation, ParseError>)
      modifies this
      ensures Follows(r, ComparisonAt(toks, fields, old(pos)))
    {
      if KindAt(toks, pos) != Some(KCmp) {
        return Err(ExpectedComparison);
      }
      var cmp := toks[pos].value;
      pos := pos + 1;
      var op := OpOf(cmp);
      if op.None? {
        return Err(UnknownComparison(cmp));
      }
      if KindAt(toks, pos) != Some(KNumber) {
        return Err(ExpectedNumber(cmp));
      }
      var num := toks[pos].value;
      pos := pos + 1;
      if !IsNumeral(num) || Decimal.Value(num) > MAX_INT {
        return Err(BadThreshold(num));
      }
      return Ok(Aggregation(fields, op.value, Decimal.Value(num)));
    }

    method ParseGroupFields() returns (r: Result<seq<string>, ParseError>)
      modifies this
      ensures Follows(r, FieldsAt(toks, old(pos)))
    {
      var fields := [];
      PrependNothing(FieldsAt(toks, pos));
      while true
        invariant FieldsAt(toks, old(pos)) == Prepend(fields, FieldsAt(toks, pos))
        decreases |toks| - pos
      {
        if KindAt(toks, pos) != Some(KIdent) {
          return Err(ExpectedField);
        }
        var field := toks[pos].value;
        pos := pos + 1;
        if KindAt(toks, pos) != Some(KComma) {
          return Ok(fields + [field]);
        }
        pos := pos + 1;
        PrependOne(fields, field, FieldsAt(toks, pos));
        fields := fields + [field];
      }
    }
  }

  method ParseCondition(sels: Selections, src: string)
    returns (r: Result<(Expr, Option<Aggregation>), ParseError>)
    requires WellNamed(sels)
    ensures r == Parse(sels, src)
  {
    hide Lex, OrAt, AggregationAt;
    var lexed := TokenizeCondition(src);
    if lexed.Err? {
      return Err(Lexical(lexed.error));
    }
    var toks := lexed.value;
    if |toks| == 3 && toks[0].kind == KIdent && toks[1].kind == KNear && toks[2].kind == KIdent {
      if toks[0].value !in sels {
        return Err(UnknownSelection(toks[0].value));
      }
      if toks[2].value !in sels {
        return Err(UnknownSelection(toks[2].value));
      }
      return Ok((Near(sels[toks[0].value], sels[toks[2].value], 0), None));
    }
    var p := new CondParser(toks, sels);
    var e := p.ParseOr();
    if e.Err? {
      return Err(e.error);
    }
    if KindAt(toks, p.pos) == Some(KNear) {
      return Err(NearNotBinary);
    }
    var agg := None;
    if KindAt(toks, p.pos) == Some(KPipe) {
      p.pos := p.pos + 1;
      var a := p.ParseAggregation();
      if a.Err? {
        return Err(a.error);
      }
      agg := Some(a.value);
    }
    if p.pos != |toks| {
      return Err(UnexpectedToken(toks[p.pos].value));
    }
    return Ok((e.value, agg));
  }
}
