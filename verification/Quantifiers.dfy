/** What "N of x*", "all of them" and "any of x" mean (parseQuantifier and
    matchSelections in pkg/ruleast/condition.go, NodeQuantifier in
    pkg/ruleast/rule.go). */
module Quantifiers {
  import opened Wrappers
  import opened Collections
  import opened RuleAst
  import opened CondParser
  import opened StringOrder

  function MatchingNames(sels: Selections, names: set<string>, env: Env): set<string> {
    set n | n in names && n in sels && Matches(sels[n], env)
  }

  /** The targets are the named selections in name order, and nothing else. */
  lemma TargetsInNameOrder(sels: Selections, c: Count, t: Target)
    requires WellNamed(sels) && Quantify(sels, c, t).Ok?
    ensures var targets := Quantify(sels, c, t).value.targets;
            && StrictlySorted(NamesOf(targets))
            && Elements(NamesOf(targets)) == Names(sels, t).value
            && forall i :: 0 <= i < |targets| ==> targets[i].name in sels && targets[i] == sels[targets[i].name]
  {
    var names := Names(sels, t).value;
    var order, targets := Listing(names), Resolve(sels, names);
    assert forall i :: 0 <= i < |order| ==> order[i] in Elements(order);
    assert NamesOf(targets) == order;
  }

  /** Distinctly named targets: the hits are the matching names. */
  lemma {:induction false} HitsAreNames(sels: Selections, targets: seq<Selection>, env: Env)
    requires StrictlySorted(NamesOf(targets))
    requires forall i :: 0 <= i < |targets| ==> targets[i].name in sels && targets[i] == sels[targets[i].name]
    ensures Hits(targets, env) == |MatchingNames(sels, Elements(NamesOf(targets)), env)|
  {
    hide Matches, Less;
    if targets != [] {
      var n := |targets| - 1;
      var front, x := targets[..n], targets[n].name;
      assert NamesOf(front) == NamesOf(targets)[..n];
      HitsAreNames(sels, front, env);
      SplitLastName(NamesOf(targets));
      hide StrictlySorted;
      OneMoreName(sels, Elements(NamesOf(front)), x, env);
    }
  }

  lemma OneMoreName(sels: Selections, names: set<string>, x: string, env: Env)
    requires x in sels && x !in names
    ensures var before := MatchingNames(sels, names, env);
            && MatchingNames(sels, names + {x}, env) == (if Matches(sels[x], env) then before + {x} else before)
            && x !in before
  {
    hide Matches;
  }

  lemma SplitLastName(s: seq<string>)
    requires s != [] && StrictlySorted(s)
    ensures Elements(s) == Elements(s[..|s| - 1]) + {s[|s| - 1]} && s[|s| - 1] !in Elements(s[..|s| - 1])
  {
    var front, x := s[..|s| - 1], s[|s| - 1];
    forall i | 0 <= i < |front|
      ensures front[i] != x
    {
      assert Less(s[i], x);
      LessIrreflexive(x);
    }
  }

  /** A quantifier holds if and only if at least its threshold of the named
      selections match; the threshold is the count clamped into 1..|targets|,
      so "all of" is the conjunction and "any of" the disjunction. */
  lemma QuantifierMeaning(sels: Selections, c: Count, t: Target, env: Env)
    requires WellNamed(sels) && (c.AtLeast? ==> c.n >= 1) && Quantify(sels, c, t).Ok?
    ensures var e, names := Quantify(sels, c, t).value, Names(sels, t).value;
            && 1 <= e.threshold <= |e.targets| == |names|
            && (c.AtLeast? ==> e.threshold == if c.n < |names| then c.n else |names|)
            && (Eval(e, env) <==> |MatchingNames(sels, names, env)| >= e.threshold)
            && (c.All? ==> (Eval(e, env) <==> forall n :: n in names ==> Matches(sels[n], env)))
            && (c == AtLeast(1) ==> (Eval(e, env) <==> exists n :: n in names && Matches(sels[n], env)))
  {
    hide Matches, Hits, Less, MatchingNames, StrictlySorted, Elements, Label;
    var e, names := Quantify(sels, c, t).value, Names(sels, t).value;
    TargetsInNameOrder(sels, c, t);
    HitsAreNames(sels, e.targets, env);
    HowManyMatch(sels, names, env);
  }

  lemma HowManyMatch(sels: Selections, names: set<string>, env: Env)
    requires names <= sels.Keys
    ensures var hit := MatchingNames(sels, names, env);
            && |hit| <= |names|
            && (|hit| == |names| <==> forall n :: n in names ==> Matches(sels[n], env))
            && (|hit| >= 1 <==> exists n :: n in names && Matches(sels[n], env))
  {
    hide Matches;
    var hit := MatchingNames(sels, names, env);
    var miss := names - hit;
    assert names == hit + miss && |names| == |hit| + |miss|;
    assert forall n :: n in names ==> (n in hit <==> Matches(sels[n], env));
    assert |miss| == 0 <==> miss == {};
    assert |hit| == 0 <==> hit == {};
    if hit != {} {
      var n :| n in hit;
    }
    if miss != {} {
      var n :| n in miss;
    }
  }

  /** What a target names: everything, the selection of that name, or with one
      star at its end every selection whose name begins with the rest. */
  lemma TargetNames(sels: Selections, pattern: string, prefix: string, n: string)
    ensures Names(sels, Them) == Ok(sels.Keys)
    ensures '*' !in pattern ==>
              Names(sels, Named(pattern)) == if pattern in sels then Ok({pattern}) else Err(UnknownSelection(pattern))
    ensures '*' !in prefix ==>
              && Names(sels, Named(prefix + "*")).Ok?
              && (n in Names(sels, Named(prefix + "*")).value <==> n in sels && exists rest :: n == prefix + rest)
    ensures '*' in prefix ==> Names(sels, Named(prefix + "*")) == Err(BadWildcard(prefix + "*"))
    ensures '*' in prefix && pattern != [] && pattern[|pattern| - 1] != '*' ==>
              Names(sels, Named(prefix + pattern)) == Err(BadWildcard(prefix + pattern))
  {
    var p := prefix + "*";
    assert p[|p| - 1] == '*' && p[..|p| - 1] == prefix;
    if prefix <= n {
      assert n == prefix + n[|prefix|..];
    }
    var q := prefix + pattern;
    assert pattern != [] ==> q[|q| - 1] == pattern[|pattern| - 1];
    assert forall c :: c in q <==> c in prefix || c in pattern;
  }

  /** A quantifier is written with the count it was given, not the clamped one,
      and `any` as 1. */
  lemma LabelKeepsCount(sels: Selections, c: Count, t: Target)
    requires Quantify(sels, c, t).Ok?
    ensures Print(Quantify(sels, c, t).value)
         == (if c.All? then "all" else Decimal.Print(c.n)) + (" of " + if t.Them? then "them" else t.name)
  {
    hide Names, Resolve, Decimal.Print;
  }
}
