/** The compiled rule tree: selections, the boolean expression over them, its
    evaluation and its printed form (pkg/ruleast/rule.go). What a single field
    predicate means is left to the environment. */
module RuleAst {
  datatype Operator = OpEquals | OpContains | OpStartsWith | OpEndsWith | OpRegex | OpCIDR | OpIOC
                    | OpGT | OpGTE | OpLT | OpLTE

  datatype FieldPredicate = FieldPredicate(field: string, op: Operator, values: seq<string>, feedIDs: seq<string>)

  /** OR over branches, AND within a branch. */
  datatype Selection = Selection(name: string, branches: seq<seq<FieldPredicate>>)

  type Env = FieldPredicate -> bool

  datatype Expr =
    | Sel(name: string, sel: Selection)
    | And(l: Expr, r: Expr)
    | Or(l: Expr, r: Expr)
    | Not(x: Expr)
    | Near(left: Selection, right: Selection, withinSecs: nat)
    | Quantifier(threshold: int, targets: seq<Selection>, text: string)

  datatype AggOp = GT | GTE | LT | LTE | EQ | NE

  /** How an operator is written. */
  function OpText(op: AggOp): string {
    match op
    case GT => ">"
    case GTE => ">="
    case LT => "<"
    case LTE => "<="
    case EQ => "=="
    case NE => "!="
  }

  /** The piped tail of a condition: `count() by groupBy op threshold`. */
  datatype Aggregation = Aggregation(groupBy: seq<string>, op: AggOp, threshold: nat)

  predicate Matches(sel: Selection, env: Env) {
    exists b :: b in sel.branches && forall p :: p in b ==> env(p)
  }

  /** How many of the targets match. */
  function Hits(targets: seq<Selection>, env: Env): nat {
    if targets == [] then 0
    else Hits(targets[..|targets| - 1], env) + (if Matches(targets[|targets| - 1], env) then 1 else 0)
  }

  /** A temporal join is never decided by the stateless evaluator. */
  predicate Eval(e: Expr, env: Env) {
    match e
    case Sel(_, sel) => Matches(sel, env)
    case And(l, r) => Eval(l, env) && Eval(r, env)
    case Or(l, r) => Eval(l, env) || Eval(r, env)
    case Not(x) => !Eval(x, env)
    case Near(_, _, _) => false
    case Quantifier(threshold, targets, _) => threshold > 0 && targets != [] && Hits(targets, env) >= threshold
  }

  /** The printed form, for expressions the compiler builds: quantifiers always
      carry a label. */
  function Print(e: Expr): string {
    match e
    case Sel(name, _) => name
    case And(l, r) => "(" + (Print(l) + (" and " + (Print(r) + ")")))
    case Or(l, r) => "(" + (Print(l) + (" or " + (Print(r) + ")")))
    case Not(x) => "(not " + (Print(x) + ")")
    case Near(left, right, _) => "(" + (left.name + (" near " + (right.name + ")")))
    case Quantifier(_, _, text) => text
  }

  /** A selection is the disjunction of its branches, a branch the conjunction of
      its predicates; no branch matches nothing, an empty branch everything. */
  lemma SelectionMeaning(name: string, bs: seq<seq<FieldPredicate>>, b: seq<FieldPredicate>, p: FieldPredicate, env: Env)
    ensures !Matches(Selection(name, []), env) && Matches(Selection(name, [[]]), env)
    ensures Matches(Selection(name, bs + [b]), env) <==>
              Matches(Selection(name, bs), env) || Matches(Selection(name, [b]), env)
    ensures Matches(Selection(name, [b + [p]]), env) <==> Matches(Selection(name, [b]), env) && env(p)
  {
    OneBranch(name, [], env);
    OneBranch(name, b, env);
    OneBranch(name, b + [p], env);
    assert (b + [p])[|b|] == p;
    var all := bs + [b];
    assert forall x :: x in all <==> x in bs || x == b;
    if Matches(Selection(name, all), env) {
      var x :| x in all && forall q :: q in x ==> env(q);
      assert x in bs ==> Matches(Selection(name, bs), env);
    }
    if Matches(Selection(name, bs), env) {
      var x :| x in bs && forall q :: q in x ==> env(q);
      assert x in Selection(name, all).branches;
    }
    if Matches(Selection(name, [b]), env) {
      assert b in Selection(name, all).branches;
    }
  }

  /** A temporal join never holds of a single event. */
  lemma JoinNeverHolds(left: Selection, right: Selection, withinSecs: nat, env: Env)
    ensures !Eval(Near(left, right, withinSecs), env)
  {
  }

  lemma OneBranch(name: string, b: seq<FieldPredicate>, env: Env)
    ensures Matches(Selection(name, [b]), env) <==> forall q :: q in b ==> env(q)
  {
    assert [b][0] == b && b in Selection(name, [b]).branches;
    assert forall x :: x in [b] ==> x == b;
  }

  method EvalSelection(sel: Selection, env: Env) returns (hit: bool)
    ensures hit == Matches(sel, env)
  {
    for i := 0 to |sel.branches|
      invariant forall k :: 0 <= k < i ==> exists p :: p in sel.branches[k] && !env(p)
    {
      var branch, all := sel.branches[i], true;
      for j := 0 to |branch|
        invariant all && forall k :: 0 <= k < j ==> env(branch[k])
      {
        if !env(branch[j]) {
          all := false;
          break;
        }
      }
      if all {
        assert branch in sel.branches && forall p :: p in branch ==> env(p);
        return true;
      }
    }
    return false;
  }

  /** Stops as soon as enough targets have matched. */
  method EvalQuantifier(threshold: int, targets: seq<Selection>, env: Env) returns (hit: bool)
    ensures hit == Eval(Quantifier(threshold, targets, ""), env)
    ensures hit <==> threshold > 0 && |set i | 0 <= i < |targets| && Matches(targets[i], env)| >= threshold
  {
    HitsIsCardinality(targets, env);
    if threshold <= 0 || |targets| == 0 {
      return false;
    }
    var hits := 0;
    for i := 0 to |targets|
      invariant hits == Hits(targets[..i], env) && hits < threshold
    {
      assert targets[..i + 1][..i] == targets[..i];
      var m := EvalSelection(targets[i], env);
      if m {
        hits := hits + 1;
        if hits >= threshold {
          HitsGrow(targets, i + 1, env);
          return true;
        }
      }
    }
    assert targets[..|targets|] == targets;
    return false;
  }

  lemma {:induction false} HitsGrow(targets: seq<Selection>, n: nat, env: Env)
    requires n <= |targets|
    ensures Hits(targets[..n], env) <= Hits(targets, env)
  {
    if n < |targets| {
      HitsGrow(targets[..|targets| - 1], n, env);
      assert targets[..|targets| - 1][..n] == targets[..n];
    } else {
      assert targets[..n] == targets;
    }
  }

  /** The number of hits is the number of positions that match. */
  lemma {:induction false} HitsIsCardinality(targets: seq<Selection>, env: Env)
    ensures Hits(targets, env) == |set i | 0 <= i < |targets| && Matches(targets[i], env)|
  {
    if targets != [] {
      var n := |targets| - 1;
      var front := targets[..n];
      HitsIsCardinality(front, env);
      var hit := set i | 0 <= i < |front| && Matches(front[i], env);
      var hit' := set i | 0 <= i < |targets| && Matches(targets[i], env);
      assert hit' == if Matches(targets[n], env) then hit + {n} else hit;
    }
  }

  lemma {:induction false} HitsBounds(targets: seq<Selection>, env: Env)
    ensures Hits(targets, env) <= |targets|
    ensures Hits(targets, env) == |targets| <==> forall i :: 0 <= i < |targets| ==> Matches(targets[i], env)
    ensures Hits(targets, env) >= 1 <==> exists i :: 0 <= i < |targets| && Matches(targets[i], env)
  {
    if targets != [] {
      var n := |targets| - 1;
      var front := targets[..n];
      HitsBounds(front, env);
      assert forall i :: 0 <= i < n ==> front[i] == targets[i];
      if exists i :: 0 <= i < n && Matches(front[i], env) {
        var i :| 0 <= i < n && Matches(front[i], env);
        assert Matches(targets[i], env);
      }
    }
  }
}
