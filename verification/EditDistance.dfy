/** The two-row Levenshtein distance behind configuration-key suggestions
    (suggest, editDistance and min3 in agent/internal/config/config.go), over
    strings taken as sequences of runes. */
module EditDistance {
  import opened Collections

  function Min3(a: int, b: int, c: int): (m: int)
    ensures m <= a && m <= b && m <= c && (m == a || m == b || m == c)
  {
    var m := if b < a then b else a;
    if c < m then c else m
  }

  function Cost(a: string, b: string): int
    requires a != [] && b != []
  {
    if Last(a) == Last(b) then 0 else 1
  }

  /** The recursive Levenshtein distance. */
  function Lev(a: string, b: string): nat
    decreases |a| + |b|
  {
    if a == [] then |b|
    else if b == [] then |a|
    else Min3(Lev(a, Front(b)) + 1, Lev(Front(a), b) + 1, Lev(Front(a), Front(b)) + Cost(a, b))
  }

  // ----- the rolling rows -----

  /** The entry of the full table for prefixes of length i and j. */
  function Cell(a: string, b: string, i: nat, j: nat): nat
    requires i <= |a| && j <= |b|
  {
    Lev(a[..i], b[..j])
  }

  lemma CellStep(a: string, b: string, i: nat, j: nat)
    requires 1 <= i <= |a| && 1 <= j <= |b|
    ensures Cell(a, b, i, j)
         == Min3(Cell(a, b, i, j - 1) + 1, Cell(a, b, i - 1, j) + 1,
                 Cell(a, b, i - 1, j - 1) + if a[i - 1] == b[j - 1] then 0 else 1)
  {
    assert Front(a[..i]) == a[..i - 1] && Front(b[..j]) == b[..j - 1];
  }

  /** Row `i` of the table, up to column `n`. */
  ghost predicate RowUpTo(row: array<int>, a: string, b: string, i: nat, n: nat)
    reads row
  {
    row.Length == |b| + 1 && i <= |a| && n <= |b| + 1 && forall j :: 0 <= j < n ==> row[j] == Cell(a, b, i, j)
  }

  method Distance(a: string, b: string) returns (d: int)
    ensures d == Lev(a, b)
  {
    if a == b {
      SelfDistance(a);
      return 0;
    }
    var prev := new int[|b| + 1];
    var curr := new int[|b| + 1];
    for j := 0 to prev.Length
      invariant forall k :: 0 <= k < j ==> prev[k] == k
    {
      prev[j] := j;
    }
    var i := 1;
    while i <= |a|
      invariant 1 <= i <= |a| + 1 && prev != curr && curr.Length == |b| + 1
      invariant fresh(prev) && fresh(curr)
      invariant RowUpTo(prev, a, b, i - 1, |b| + 1)
    {
      FillRow(a, b, i, prev, curr);
      prev, curr := curr, prev;
      i := i + 1;
    }
    assert a[..|a|] == a && b[..|b|] == b;
    return prev[|b|];
  }

  /** The inner loop: one row from the row before it. */
  method FillRow(a: string, b: string, i: nat, prev: array<int>, curr: array<int>)
    requires 1 <= i <= |a| && prev != curr && curr.Length == |b| + 1
    requires RowUpTo(prev, a, b, i - 1, |b| + 1)
    modifies curr
    ensures RowUpTo(curr, a, b, i, |b| + 1)
  {
    curr[0] := i;
    var j := 1;
    while j <= |b|
      invariant 1 <= j <= |b| + 1
      invariant RowUpTo(curr, a, b, i, j) && RowUpTo(prev, a, b, i - 1, |b| + 1)
    {
      var cost := 1;
      if a[i - 1] == b[j - 1] {
        cost := 0;
      }
      CellStep(a, b, i, j);
      curr[j] := Min3(curr[j - 1] + 1, prev[j] + 1, prev[j - 1] + cost);
      j := j + 1;
    }
  }

  // ----- Lev is a metric -----

  lemma {:induction false} SelfDistance(a: string)
    ensures Lev(a, a) == 0
  {
    if a != [] {
      SelfDistance(Front(a));
    }
  }

  lemma {:induction false} ZeroOnlyIfEqual(a: string, b: string)
    requires Lev(a, b) == 0
    ensures a == b
    decreases |a| + |b|
  {
    if a != [] && b != [] {
      ZeroOnlyIfEqual(Front(a), Front(b));
      assert a == Front(a) + [Last(a)] && b == Front(b) + [Last(b)];
    }
  }

  lemma {:induction false} Symmetric(a: string, b: string)
    ensures Lev(a, b) == Lev(b, a)
    decreases |a| + |b|
  {
    if a != [] && b != [] {
      Symmetric(a, Front(b));
      Symmetric(Front(a), b);
      Symmetric(Front(a), Front(b));
    }
  }

  /** The length difference bounds the distance from below, the sum from above. */
  lemma {:induction false} LengthBounds(a: string, b: string)
    ensures |a| - |b| <= Lev(a, b) && |b| - |a| <= Lev(a, b) <= |a| + |b|
    decreases |a| + |b|
  {
    if a != [] && b != [] {
      LengthBounds(a, Front(b));
      LengthBounds(Front(a), b);
      LengthBounds(Front(a), Front(b));
    }
  }

  lemma {:induction false} Triangle(a: string, b: string, c: string)
    ensures Lev(a, c) <= Lev(a, b) + Lev(b, c)
    decreases |a| + |b| + |c|
  {
    if a == [] || b == [] || c == [] {
      LengthBounds(a, b);
      LengthBounds(b, c);
      LengthBounds(a, c);
    } else if Lev(a, b) == Lev(Front(a), b) + 1 {
      Triangle(Front(a), b, c);
    } else if Lev(b, c) == Lev(b, Front(c)) + 1 {
      Triangle(a, b, Front(c));
    } else if Lev(a, b) == Lev(a, Front(b)) + 1 {
      if Lev(b, c) == Lev(Front(b), c) + 1 {
        Triangle(a, Front(b), c);
      } else {
        Triangle(a, Front(b), Front(c));
      }
    } else if Lev(b, c) == Lev(Front(b), c) + 1 {
      Triangle(Front(a), Front(b), c);
    } else {
      Triangle(Front(a), Front(b), Front(c));
    }
  }

  // ----- shortest edit scripts -----

  datatype Edit = Insert(at: nat, c: char) | Delete(at: nat) | Substitute(at: nat, c: char)

  predicate Applicable(e: Edit, s: string) { if e.Insert? then e.at <= |s| else e.at < |s| }

  function Apply(e: Edit, s: string): string
    requires Applicable(e, s)
  {
    match e
    case Insert(at, c) => s[..at] + [c] + s[at..]
    case Delete(at) => s[..at] + s[at + 1..]
    case Substitute(at, c) => s[..at] + [c] + s[at + 1..]
  }

  /** The edits, done one after the other, turn `s` into `t`. */
  predicate Turns(edits: seq<Edit>, s: string, t: string) {
    if edits == [] then s == t
    else Applicable(edits[0], s) && Turns(edits[1..], Apply(edits[0], s), t)
  }

  lemma {:induction false} CommonSuffix(a: string, b: string, s: string)
    ensures Lev(a + s, b + s) <= Lev(a, b)
    decreases |s|
  {
    if s == [] {
      assert a + s == a && b + s == b;
    } else {
      CommonSuffix(a, b, Front(s));
      assert Front(a + s) == a + Front(s) && Front(b + s) == b + Front(s);
    }
  }

  lemma LastEditIsNear(p: string, c: char, d: char)
    ensures Lev(p, p + [c]) <= 1 && Lev(p + [c], p) <= 1 && Lev(p + [c], p + [d]) <= 1
  {
    SelfDistance(p);
    assert Front(p + [c]) == p && Front(p + [d]) == p;
  }

  lemma OneEditIsNear(e: Edit, s: string)
    requires Applicable(e, s)
    ensures Lev(s, Apply(e, s)) <= 1
  {
    hide Lev;
    var p := s[..e.at];
    match e
    case Insert(at, c) =>
      LastEditIsNear(p, c, c);
      CommonSuffix(p, p + [c], s[at..]);
      assert s == p + s[at..];
    case Delete(at) =>
      LastEditIsNear(p, s[at], s[at]);
      CommonSuffix(p + [s[at]], p, s[at + 1..]);
      assert s == p + [s[at]] + s[at + 1..];
    case Substitute(at, c) =>
      LastEditIsNear(p, s[at], c);
      CommonSuffix(p + [s[at]], p + [c], s[at + 1..]);
      assert s == p + [s[at]] + s[at + 1..];
  }

  /** No script is shorter than the distance. */
  lemma {:induction false} ScriptsAreNoShorter(edits: seq<Edit>, s: string, t: string)
    requires Turns(edits, s, t)
    ensures Lev(s, t) <= |edits|
  {
    if edits == [] {
      SelfDistance(s);
    } else {
      var s' := Apply(edits[0], s);
      OneEditIsNear(edits[0], s);
      ScriptsAreNoShorter(edits[1..], s', t);
      Triangle(s, s', t);
    }
  }

  lemma {:induction false} TurnsThen(edits: seq<Edit>, more: seq<Edit>, s: string, t: string, u: string)
    requires Turns(edits, s, t) && Turns(more, t, u)
    ensures Turns(edits + more, s, u)
  {
    hide Apply;
    if edits == [] {
      assert edits + more == more;
    } else {
      var all := edits + more;
      TurnsThen(edits[1..], more, Apply(edits[0], s), t, u);
      assert all[0] == edits[0] && all[1..] == edits[1..] + more;
    }
  }

  lemma ApplyBefore(e: Edit, s: string, tail: string)
    requires Applicable(e, s)
    ensures Applicable(e, s + tail) && Apply(e, s + tail) == Apply(e, s) + tail
  {
    assert (s + tail)[..e.at] == s[..e.at];
    assert (s + tail)[e.at..] == s[e.at..] + tail;
    assert !e.Insert? ==> (s + tail)[e.at + 1..] == s[e.at + 1..] + tail;
  }

  /** Editing a prefix leaves what follows it alone. */
  lemma {:induction false} TurnsBefore(edits: seq<Edit>, s: string, t: string, tail: string)
    requires Turns(edits, s, t)
    ensures Turns(edits, s + tail, t + tail)
  {
    hide Apply;
    if edits != [] {
      TurnsBefore(edits[1..], Apply(edits[0], s), t, tail);
      ApplyBefore(edits[0], s, tail);
    }
  }

  lemma OneTurn(e: Edit, s: string)
    requires Applicable(e, s)
    ensures Turns([e], s, Apply(e, s))
  {
    assert [e][1..] == [];
  }

  /** One more insertion at the end, one deletion at the end first, or one
      substitution of the last rune at the end. */
  lemma ThenInsert(edits: seq<Edit>, s: string, t: string) returns (edits': seq<Edit>)
    requires t != [] && Turns(edits, s, Front(t))
    ensures Turns(edits', s, t) && |edits'| == |edits| + 1
  {
    hide Turns;
    var e := Insert(|t| - 1, Last(t));
    OneTurn(e, Front(t));
    assert Apply(e, Front(t)) == t;
    TurnsThen(edits, [e], s, Front(t), t);
    edits' := edits + [e];
  }

  lemma DeleteFirst(edits: seq<Edit>, s: string, t: string) returns (edits': seq<Edit>)
    requires s != [] && Turns(edits, Front(s), t)
    ensures Turns(edits', s, t) && |edits'| == |edits| + 1
  {
    hide Turns;
    var e := Delete(|s| - 1);
    OneTurn(e, s);
    assert Apply(e, s) == Front(s);
    TurnsThen([e], edits, s, Front(s), t);
    edits' := [e] + edits;
  }

  lemma FixLast(edits: seq<Edit>, s: string, t: string) returns (edits': seq<Edit>)
    requires s != [] && t != [] && Turns(edits, Front(s), Front(t))
    ensures Turns(edits', s, t) && |edits'| == |edits| + Cost(s, t)
  {
    hide Turns;
    var mid := Front(t) + [Last(s)];
    TurnsBefore(edits, Front(s), Front(t), [Last(s)]);
    assert s == Front(s) + [Last(s)];
    assert t == Front(t) + [Last(t)];
    if Last(s) == Last(t) {
      edits' := edits;
    } else {
      var e := Substitute(|t| - 1, Last(t));
      OneTurn(e, mid);
      assert Apply(e, mid) == t;
      TurnsThen(edits, [e], s, mid, t);
      edits' := edits + [e];
    }
  }

  /** Some script has exactly the distance's length. */
  lemma {:induction false} ShortestScript(s: string, t: string) returns (edits: seq<Edit>)
    ensures Turns(edits, s, t) && |edits| == Lev(s, t)
    decreases |s| + |t|
  {
    if s == [] && t == [] {
      edits := [];
    } else if t != [] && (s == [] || Lev(s, t) == Lev(s, Front(t)) + 1) {
      edits := ShortestScript(s, Front(t));
      edits := ThenInsert(edits, s, t);
    } else if t == [] || Lev(s, t) == Lev(Front(s), t) + 1 {
      edits := ShortestScript(Front(s), t);
      edits := DeleteFirst(edits, s, t);
    } else {
      edits := ShortestScript(Front(s), Front(t));
      edits := FixLast(edits, s, t);
    }
  }

  /** The distance is the length of a shortest insert/delete/substitute script. */
  lemma LevIsShortestScript(s: string, t: string)
    ensures exists edits :: Turns(edits, s, t) && |edits| == Lev(s, t)
    ensures forall edits :: Turns(edits, s, t) ==> |edits| >= Lev(s, t)
  {
    var best := ShortestScript(s, t);
    forall edits | Turns(edits, s, t)
      ensures |edits| >= Lev(s, t)
    {
      ScriptsAreNoShorter(edits, s, t);
    }
  }

  // ----- suggestions -----

  datatype Scored = Scored(s: string, d: int)

  ghost predicate ByDistance(ys: seq<Scored>) {
    forall i, j :: 0 <= i < j < |ys| ==> ys[i].d <= ys[j].d
  }

  /** Sorting by distance (sort.Slice), by insertion; ties in any order. */
  method SortByDistance(xs: seq<Scored>) returns (ys: seq<Scored>)
    ensures multiset(ys) == multiset(xs) && |ys| == |xs| && ByDistance(ys)
  {
    ys := [];
    for k := 0 to |xs|
      invariant |ys| == k && multiset(ys) == multiset(xs[..k]) && ByDistance(ys)
    {
      ys := InsertByDistance(ys, xs[k]);
      assert xs[..k + 1] == xs[..k] + [xs[k]];
    }
    assert xs[..|xs|] == xs;
  }

  method InsertByDistance(ys: seq<Scored>, x: Scored) returns (zs: seq<Scored>)
    requires ByDistance(ys)
    ensures multiset(zs) == multiset(ys) + multiset{x} && |zs| == |ys| + 1 && ByDistance(zs)
  {
    assert ByDistance(ys);
    var p := |ys|;
    while p > 0 && x.d < ys[p - 1].d
      invariant 0 <= p <= |ys| && forall i :: p <= i < |ys| ==> x.d < ys[i].d
    {
      p := p - 1;
    }
    InsertAt(ys, x, p);
    InsertMultiset(ys, x, p);
    zs := ys[..p] + [x] + ys[p..];
  }

  lemma InsertAt(ys: seq<Scored>, x: Scored, p: nat)
    requires p <= |ys| && ByDistance(ys) && (forall i :: p <= i < |ys| ==> x.d < ys[i].d)
    requires p > 0 ==> ys[p - 1].d <= x.d
    ensures ByDistance(ys[..p] + [x] + ys[p..])
  {
    var zs := ys[..p] + [x] + ys[p..];
    forall i, j | 0 <= i < j < |zs|
      ensures zs[i].d <= zs[j].d
    {
      assert zs[i] == if i < p then ys[i] else if i == p then x else ys[i - 1];
      assert zs[j] == if j < p then ys[j] else if j == p then x else ys[j - 1];
    }
  }

  /** A closest candidate if one is within two edits, otherwise the empty string. */
  method Suggest(candidates: seq<string>, input: string) returns (r: string)
    ensures if exists c :: c in candidates && Lev(input, c) <= 2
            then r in candidates && Lev(input, r) <= 2 && forall c :: c in candidates ==> Lev(input, r) <= Lev(input, c)
            else r == ""
  {
    hide Lev;
    var scored := [];
    for i := 0 to |candidates|
      invariant |scored| == i
      invariant forall k :: 0 <= k < i ==> scored[k] == Scored(candidates[k], Lev(input, candidates[k]))
    {
      var d := Distance(input, candidates[i]);
      scored := scored + [Scored(candidates[i], d)];
    }
    var sorted := SortByDistance(scored);
    HeadIsNearest(candidates, input, scored, sorted);
    if |sorted| == 0 || sorted[0].d > 2 {
      return "";
    }
    return sorted[0].s;
  }

  lemma HeadIsNearest(candidates: seq<string>, input: string, scored: seq<Scored>, sorted: seq<Scored>)
    requires |scored| == |candidates| == |sorted| && multiset(sorted) == multiset(scored)
    requires forall k :: 0 <= k < |scored| ==> scored[k] == Scored(candidates[k], Lev(input, candidates[k]))
    requires ByDistance(sorted)
    ensures sorted != [] ==> sorted[0].s in candidates && sorted[0].d == Lev(input, sorted[0].s)
    ensures sorted != [] ==> forall c :: c in candidates ==> sorted[0].d <= Lev(input, c)
  {
    hide Lev;
    assert forall x :: x in sorted <==> x in multiset(sorted);
    assert forall x :: x in scored <==> x in multiset(scored);
    if sorted != [] {
      assert sorted[0] in scored;
      forall c | c in candidates
        ensures sorted[0].d <= Lev(input, c)
      {
        var k :| 0 <= k < |candidates| && candidates[k] == c;
        assert scored[k] in sorted;
        var m :| 0 <= m < |sorted| && sorted[m] == scored[k];
      }
    }
  }
}
