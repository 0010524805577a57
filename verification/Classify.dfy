/** The edge/server classification gate (pkg/ruleast/compile.go, the timeframe
    rules of compileSigma in pkg/ruleast/sigma.go) and the agent's refusal checks
    (compileRuleSet in agent/internal/app/ruleset.go). */
module Classify {
  import opened Wrappers
  import opened Collections
  import opened RuleAst
  import opened StringOrder

  const MAX_FEED_ENTRIES: nat := 100_000
  const MAX_WINDOW_SECS: nat := 300
  const MAX_STATE_CAP: nat := 1024

  /** A rule after YAML, condition and timeframe have been parsed. */
  datatype Source = Source(id: string, selections: map<string, Selection>, condition: Expr, aggregates: bool,
                           timeframeSecs: nat, forceEdge: bool, lookback: bool, crossHost: bool)

  /** IOC feed sizes; no registry at all is None. */
  type Registry = Option<map<string, nat>>

  datatype CompileError = NeedsTimeframe | StrayTimeframe | StrayLookback | NoRegistry | UnknownFeed
                        | ForcedOversizeFeed | ForcedRemoteInputs | ForcedLongWindow

  datatype EdgeArtefact = EdgeArtefact(src: Source, astVersion: nat, windowSecs: nat, stateCap: nat,
                                       lookback: bool, feeds: set<string>)

  datatype ServerPlan = ServerPlan(ruleId: string, joins: bool, aggregates: bool, timeframeSecs: nat,
                                   lookback: bool, crossHost: bool, feeds: set<string>)

  datatype Class = EdgeOnly | ServerOnly

  datatype Compiled = Compiled(art: Option<EdgeArtefact>, plan: Option<ServerPlan>, class_: Class)

  // ----- IOC feeds -----

  function PredicateFeeds(p: FieldPredicate): set<string> { if p.op == OpIOC then Elements(p.feedIDs) else {} }

  function BranchFeeds(ps: seq<FieldPredicate>): set<string> { set p, f | p in ps && f in PredicateFeeds(p) :: f }

  function BranchesFeeds(bs: seq<seq<FieldPredicate>>): set<string> { set b, f | b in bs && f in BranchFeeds(b) :: f }

  function SelectionFeeds(sel: Selection): set<string> { BranchesFeeds(sel.branches) }

  /** Every feed an IOC predicate of the rule names. */
  function Feeds(src: Source): set<string> {
    set n, f | n in src.selections && f in SelectionFeeds(src.selections[n]) :: f
  }

  /** In-place insertion sort by adjacent swaps. */
  method SortStrings(a: array<string>)
    modifies a
    ensures multiset(a[..]) == multiset(old(a[..])) && Ascending(a[..], a.Length)
  {
    hide Less;
    var i := 1;
    while i < a.Length
      invariant 1 <= i && multiset(a[..]) == multiset(old(a[..]))
      invariant Ascending(a[..], if i <= a.Length then i else a.Length)
    {
      Sink(a, i);
      i := i + 1;
    }
  }

  /** The first `n` elements are in order. */
  predicate Ascending(s: seq<string>, n: nat)
    requires n <= |s|
  {
    forall x, y :: 0 <= x < y < n ==> !Less(s[y], s[x])
  }

  /** The inner loop: element `i` moves down to its place. */
  method Sink(a: array<string>, i: nat)
    requires i < a.Length && Ascending(a[..], i)
    modifies a
    ensures multiset(a[..]) == multiset(old(a[..])) && Ascending(a[..], i + 1)
  {
    hide Less;
    var j := i;
    while j > 0 && Less(a[j], a[j - 1])
      invariant 0 <= j <= i && multiset(a[..]) == multiset(old(a[..]))
      invariant forall x, y :: 0 <= x < y <= i && x != j && y != j ==> !Less(a[y], a[x])
      invariant forall y :: j < y <= i ==> Less(a[j], a[y])
    {
      Swap(a, j);
      j := j - 1;
    }
    SettleAt(a[..], i, j);
  }

  method Swap(a: array<string>, j: nat)
    requires 0 < j < a.Length
    modifies a
    ensures multiset(a[..]) == multiset(old(a[..]))
    ensures a[j] == old(a[j - 1]) && a[j - 1] == old(a[j])
    ensures forall k :: 0 <= k < a.Length && k != j && k != j - 1 ==> a[k] == old(a[k])
  {
    a[j - 1], a[j] := a[j], a[j - 1];
  }

  /** Once the new element meets one that is not larger, the prefix is sorted. */
  lemma SettleAt(s: seq<string>, i: nat, j: nat)
    requires j <= i < |s| && (j > 0 ==> !Less(s[j], s[j - 1]))
    requires forall x, y :: 0 <= x < y <= i && x != j && y != j ==> !Less(s[y], s[x])
    requires forall y :: j < y <= i ==> Less(s[j], s[y])
    ensures Ascending(s, i + 1)
  {
    hide Less;
    forall x, y | 0 <= x < y <= i
      ensures !Less(s[y], s[x])
    {
      if x == j {
        LessAsymmetric(s[j], s[y]);
      } else if y == j && x < j - 1 {
        NotLessTransitive(s[x], s[j - 1], s[j]);
      }
    }
  }

  lemma BranchPush(ps: seq<FieldPredicate>, p: FieldPredicate)
    ensures BranchFeeds(ps + [p]) == BranchFeeds(ps) + PredicateFeeds(p)
  {
    assert forall x :: x in ps + [p] <==> x in ps || x == p;
  }

  lemma BranchesPush(bs: seq<seq<FieldPredicate>>, b: seq<FieldPredicate>)
    ensures BranchesFeeds(bs + [b]) == BranchesFeeds(bs) + BranchFeeds(b)
  {
    assert forall x :: x in bs + [b] <==> x in bs || x == b;
  }

  /** The feeds of one branch, added to those already seen. */
  method AddBranch(branch: seq<FieldPredicate>, seen0: set<string>) returns (seen: set<string>)
    ensures seen == seen0 + BranchFeeds(branch)
  {
    seen := seen0;
    for j := 0 to |branch|
      invariant seen == seen0 + BranchFeeds(branch[..j])
    {
      assert branch[..j + 1] == branch[..j] + [branch[j]];
      BranchPush(branch[..j], branch[j]);
      if branch[j].op == OpIOC {
        seen := AddIds(branch[j].feedIDs, seen);
      }
    }
    assert branch[..|branch|] == branch;
  }

  method AddFeeds(sel: Selection, seen0: set<string>) returns (seen: set<string>)
    ensures seen == seen0 + SelectionFeeds(sel)
  {
    hide BranchFeeds;
    seen := seen0;
    for i := 0 to |sel.branches|
      invariant seen == seen0 + BranchesFeeds(sel.branches[..i])
    {
      assert sel.branches[..i + 1] == sel.branches[..i] + [sel.branches[i]];
      BranchesPush(sel.branches[..i], sel.branches[i]);
      seen := AddBranch(sel.branches[i], seen);
    }
    assert sel.branches[..|sel.branches|] == sel.branches;
  }

  method AddIds(ids: seq<string>, seen0: set<string>) returns (seen: set<string>)
    ensures seen == seen0 + Elements(ids)
  {
    seen := seen0;
    for k := 0 to |ids|
      invariant seen == seen0 + Elements(ids[..k])
    {
      assert ids[..k + 1] == ids[..k] + [ids[k]];
      if ids[k] !in seen {
        seen := seen + {ids[k]};
      }
    }
    assert ids[..|ids|] == ids;
  }

  /** Every feed once, in ascending order, whatever order the maps yield. */
  method CollectIOCFeeds(src: Source) returns (out: seq<string>)
    ensures out == Listing(Feeds(src))
  {
    var seen, todo := {}, src.selections.Keys;
    while todo != {}
      invariant todo <= src.selections.Keys
      invariant seen == FeedsUnder(src, src.selections.Keys - todo)
      decreases |todo|
    {
      var n :| n in todo;
      seen := AddFeeds(src.selections[n], seen);
      FeedsOneMore(src, src.selections.Keys - todo, n);
      assert src.selections.Keys - (todo - {n}) == src.selections.Keys - todo + {n};
      todo := todo - {n};
    }
    assert src.selections.Keys - {} == src.selections.Keys && seen == Feeds(src);
    if |seen| == 0 {
      return [];
    }
    out := SortedElements(seen);
  }

  function FeedsUnder(src: Source, names: set<string>): set<string> {
    set n, f | n in names && n in src.selections && f in SelectionFeeds(src.selections[n]) :: f
  }

  lemma FeedsOneMore(src: Source, names: set<string>, n: string)
    requires n in src.selections
    ensures FeedsUnder(src, names + {n}) == FeedsUnder(src, names) + SelectionFeeds(src.selections[n])
  {
  }

  lemma ElementsNone()
    ensures Elements<string>([]) == {}
  {
  }

  lemma ElementsPush(s: seq<string>, x: string)
    ensures Elements(s + [x]) == Elements(s) + {x}
  {
  }

  lemma SameElements(s: seq<string>, t: seq<string>)
    requires multiset(s) == multiset(t)
    ensures Elements(s) == Elements(t) && |s| == |t|
  {
    SameMembers(s, t);
    assert |s| == |multiset(s)| && |t| == |multiset(t)|;
  }

  /** The keys of a set, taken out in any order, then sorted in place. */
  method SortedElements(names: set<string>) returns (out: seq<string>)
    ensures out == Listing(names)
  {
    hide Elements, Less;
    var list: seq<string>, todo := [], names;
    ElementsNone();
    assert names - todo == {};
    while todo != {}
      invariant todo <= names && Elements(list) == names - todo && |list| == |names - todo|
      decreases |todo|
    {
      var n :| n in todo;
      assert names - (todo - {n}) == names - todo + {n};
      ElementsPush(list, n);
      list, todo := list + [n], todo - {n};
    }
    assert names - {} == names;
    var a := new string[|list|](i requires 0 <= i < |list| => list[i]);
    assert a[..] == list;
    SortStrings(a);
    out := a[..];
    SameElements(out, list);
    SortedIsListing(out, names);
  }

  // ----- the gate -----

  predicate Oversize(src: Source, reg: Registry)
    requires reg.Some?
  {
    exists f :: f in Feeds(src) && TooLarge(reg.value, f)
  }

  predicate TooLarge(sizes: map<string, nat>, f: string) { f in sizes && sizes[f] > MAX_FEED_ENTRIES }

  predicate FeedsKnown(src: Source, reg: Registry) {
    Feeds(src) == {} || (reg.Some? && forall f :: f in Feeds(src) ==> f in reg.value)
  }

  /** Some feed is unknown, and in name order no feed before it is oversize. */
  predicate UnknownFirst(src: Source, reg: Registry)
    requires reg.Some?
  {
    exists f :: f in Feeds(src) && f !in reg.value
      && forall g :: g in Feeds(src) && Less(g, f) ==> !TooLarge(reg.value, g)
  }

  /** Does feed size force the server? An error for a feed that cannot be
      resolved, or that is oversize on a rule that must stay on the edge; with
      both, the first in name order is reported. */
  function ClassifyIOC(src: Source, reg: Registry): Result<bool, CompileError> {
    if Feeds(src) == {} then Ok(false)
    else if reg.None? then Err(NoRegistry)
    else if src.forceEdge && Oversize(src, reg) then
      Err(if UnknownFirst(src, reg) then UnknownFeed else ForcedOversizeFeed)
    else if !FeedsKnown(src, reg) then Err(UnknownFeed)
    else Ok(Oversize(src, reg))
  }

  /** The walk over the sorted feed list. */
  method WalkFeeds(src: Source, reg: Registry) returns (r: Result<bool, CompileError>)
    ensures r == ClassifyIOC(src, reg)
  {
    hide Feeds, Listing, Less, Elements;
    var feeds := CollectIOCFeeds(src);
    if |feeds| == 0 {
      return Ok(false);
    }
    InListing(feeds, feeds[0]);
    if reg.None? {
      return Err(NoRegistry);
    }
    var serverOnly := false;
    for i := 0 to |feeds|
      invariant forall k :: 0 <= k < i ==> feeds[k] in reg.value
      invariant serverOnly <==> exists k :: 0 <= k < i && TooLarge(reg.value, feeds[k])
      invariant serverOnly ==> !src.forceEdge
    {
      var f := feeds[i];
      if f !in reg.value {
        StopsAtUnknown(src, reg, feeds, i);
        return Err(UnknownFeed);
      }
      if reg.value[f] > MAX_FEED_ENTRIES {
        assert TooLarge(reg.value, f);
        if src.forceEdge {
          StopsAtOversize(src, reg, feeds, i);
          return Err(ForcedOversizeFeed);
        }
        serverOnly := true;
      }
    }
    AllWalked(src, reg, feeds);
    return Ok(serverOnly);
  }

  /** A member of a listing that precedes its i-th entry stands before it. */
  lemma EarlierInListing(feeds: seq<string>, i: nat, g: string)
    requires StrictlySorted(feeds) && i < |feeds| && g in feeds && Less(g, feeds[i])
    ensures g in feeds[..i]
  {
    var k :| 0 <= k < |feeds| && feeds[k] == g;
    LessIrreflexive(g);
    LessAsymmetric(g, feeds[i]);
    assert feeds[..i][k] == g;
  }

  lemma InListing(feeds: seq<string>, f: string)
    ensures f in Elements(feeds) <==> f in feeds
  {
  }

  lemma StopsAtUnknown(src: Source, reg: Registry, feeds: seq<string>, i: nat)
    requires reg.Some? && feeds == Listing(Feeds(src)) && i < |feeds| && feeds[i] !in reg.value
    requires src.forceEdge ==> forall k :: 0 <= k < i ==> !TooLarge(reg.value, feeds[k])
    ensures ClassifyIOC(src, reg) == Err(UnknownFeed)
  {
    hide Feeds, Listing, Less, Elements;
    InListing(feeds, feeds[i]);
    if src.forceEdge {
      forall g | g in Feeds(src) && Less(g, feeds[i])
        ensures !TooLarge(reg.value, g)
      {
        InListing(feeds, g);
        EarlierInListing(feeds, i, g);
      }
    }
  }

  lemma StopsAtOversize(src: Source, reg: Registry, feeds: seq<string>, i: nat)
    requires reg.Some? && src.forceEdge && feeds == Listing(Feeds(src)) && i < |feeds| && TooLarge(reg.value, feeds[i])
    requires forall k :: 0 <= k < i ==> feeds[k] in reg.value
    ensures ClassifyIOC(src, reg) == Err(ForcedOversizeFeed)
  {
    hide Feeds, Listing, Less, Elements;
    InListing(feeds, feeds[i]);
    forall f | f in Feeds(src) && f !in reg.value
      ensures Less(feeds[i], f)
    {
      InListing(feeds, f);
    }
  }

  /** Seeing every position of the listing is seeing every feed. */
  lemma AllWalked(src: Source, reg: Registry, feeds: seq<string>)
    requires reg.Some? && Elements(feeds) == Feeds(src) && forall k :: 0 <= k < |feeds| ==> feeds[k] in reg.value
    ensures forall f :: f in Feeds(src) ==> f in reg.value
    ensures Oversize(src, reg) <==> exists k :: 0 <= k < |feeds| && TooLarge(reg.value, feeds[k])
  {
    hide Feeds;
    forall f | f in Feeds(src)
      ensures exists k :: 0 <= k < |feeds| && feeds[k] == f
    {
      assert f in Elements(feeds);
    }
    assert forall k :: 0 <= k < |feeds| ==> feeds[k] in Elements(feeds);
  }

  /** compileSigma's rules about where a timeframe and a lookback belong. */
  function CheckTimeframe(src: Source): Option<CompileError> {
    var near := src.condition.Near?;
    if (src.aggregates || near) && src.timeframeSecs == 0 then Some(NeedsTimeframe)
    else if !src.aggregates && !near && src.timeframeSecs > 0 then Some(StrayTimeframe)
    else if src.lookback && !src.aggregates && !near then Some(StrayLookback)
    else None
  }

  function PlanFor(src: Source): ServerPlan {
    ServerPlan(src.id, src.condition.Near?, src.aggregates, src.timeframeSecs, src.lookback, src.crossHost, Feeds(src))
  }

  function ServerSide(src: Source): Compiled { Compiled(None, Some(PlanFor(src)), ServerOnly) }

  function EdgeSide(src: Source, version: nat, window: nat, stateCap: nat): Compiled {
    Compiled(Some(EdgeArtefact(src, version, window, stateCap, src.lookback, Feeds(src))), None, EdgeOnly)
  }

  function ClassifyRule(src: Source, iocServerOnly: bool): Result<Compiled, CompileError> {
    if src.condition.Near? || src.crossHost then
      if src.forceEdge then Err(ForcedRemoteInputs) else Ok(ServerSide(src))
    else if iocServerOnly then Ok(ServerSide(src))
    else if !src.aggregates then
      if src.lookback then Err(StrayLookback) else Ok(EdgeSide(src, 1, 0, 0))
    else if src.timeframeSecs > MAX_WINDOW_SECS then
      if src.forceEdge then Err(ForcedLongWindow) else Ok(ServerSide(src))
    else Ok(EdgeSide(src, 2, src.timeframeSecs, MAX_STATE_CAP))
  }

  function Compile(src: Source, reg: Registry): Result<Compiled, CompileError> {
    if CheckTimeframe(src).Some? then Err(CheckTimeframe(src).value)
    else
      var ioc := ClassifyIOC(src, reg);
      if ioc.Err? then Err(ioc.error) else ClassifyRule(src, ioc.value)
  }

  /** The rule needs the server: inputs the agent cannot see, an oversize feed,
      or a window above the cap. */
  predicate NeedsServer(src: Source, reg: Registry) {
    || src.condition.Near? || src.crossHost
    || (Feeds(src) != {} && reg.Some? && Oversize(src, reg))
    || (src.aggregates && src.timeframeSecs > MAX_WINDOW_SECS)
  }

  /** A feed belongs to a rule if an IOC predicate in some branch of some
      selection names it. */
  lemma FeedsMean(src: Source, f: string)
    ensures f in Feeds(src) <==>
              exists n, b, p ::
                n in src.selections && b in src.selections[n].branches && p in b && p.op == OpIOC && f in p.feedIDs
  {
    if f in Feeds(src) {
      var n :| n in src.selections && f in SelectionFeeds(src.selections[n]);
      var b :| b in src.selections[n].branches && f in BranchFeeds(b);
      var p :| p in b && f in PredicateFeeds(p);
    }
    if n, b, p :| n in src.selections && b in src.selections[n].branches && p in b && p.op == OpIOC && f in p.feedIDs {
      assert f in PredicateFeeds(p) && f in BranchFeeds(b) && f in SelectionFeeds(src.selections[n]);
    }
  }

  /** The rule reads other streams or other hosts, some feed of its has more than
      100,000 entries, or it counts over more than 300 seconds. */
  lemma NeedsServerMeans(src: Source, reg: Registry)
    ensures NeedsServer(src, reg) <==>
              || src.condition.Near? || src.crossHost || (src.aggregates && src.timeframeSecs > 300)
              || (reg.Some? && exists f :: f in Feeds(src) && f in reg.value && reg.value[f] > 100_000)
  {
    hide Feeds;
  }

  /** A rule compiles if and only if it has a timeframe exactly when it counts or
      joins, looks back only then, all its feeds are known and it is not forced to
      the edge against its needs; it is then a server rule exactly when it needs
      the server, with exactly one output. */
  lemma CompileExactly(src: Source, reg: Registry)
    ensures Compile(src, reg).Ok? <==>
              && (src.timeframeSecs > 0 <==> src.aggregates || src.condition.Near?)
              && (src.lookback ==> src.aggregates || src.condition.Near?)
              && (forall f :: f in Feeds(src) ==> reg.Some? && f in reg.value)
              && !(src.forceEdge && NeedsServer(src, reg))
    ensures Compile(src, reg).Ok? ==>
              var c := Compile(src, reg).value;
              && (c.class_ == ServerOnly <==> NeedsServer(src, reg))
              && (c.art.Some? <==> c.class_ == EdgeOnly) && (c.plan.Some? <==> c.class_ == ServerOnly)
              && (src.forceEdge ==> c.class_ == EdgeOnly)
  {
    hide Feeds;
    assert FeedsKnown(src, reg) <==> forall f :: f in Feeds(src) ==> reg.Some? && f in reg.value;
    if Feeds(src) != {} {
      var f :| f in Feeds(src);
    }
  }

  /** Which error is reported, where one is. */
  lemma CompileErrors(src: Source, reg: Registry)
    ensures var r, counts := Compile(src, reg), src.aggregates || src.condition.Near?;
            && (r == Err(NeedsTimeframe) <==> counts && src.timeframeSecs == 0)
            && (r == Err(StrayTimeframe) <==> !counts && src.timeframeSecs > 0)
            && (r == Err(StrayLookback) <==> !counts && src.timeframeSecs == 0 && src.lookback)
            && (r == Err(NoRegistry) ==> Feeds(src) != {} && reg.None?)
            && (r == Err(UnknownFeed) ==> reg.Some? && exists f :: f in Feeds(src) && f !in reg.value)
            && (r == Err(ForcedOversizeFeed) ==>
                  src.forceEdge && reg.Some? && exists f :: f in Feeds(src) && f in reg.value && reg.value[f] > 100_000)
            && (r == Err(ForcedRemoteInputs) ==> src.forceEdge && (src.condition.Near? || src.crossHost))
            && (r == Err(ForcedLongWindow) ==> src.forceEdge && src.aggregates && src.timeframeSecs > 300)
  {
    hide Feeds, Less;
  }

  /** Every edge artefact is within the agent's bounds, and counts over the window
      the rule asked for. */
  lemma EdgeBounds(src: Source, reg: Registry)
    requires Compile(src, reg).Ok? && Compile(src, reg).value.art.Some?
    ensures var art := Compile(src, reg).value.art.value;
            && art.src == src && art.feeds == Feeds(src) && art.lookback == src.lookback
            && (forall f :: f in art.feeds ==> reg.Some? && f in reg.value && reg.value[f] <= 100_000)
            && art.windowSecs == src.timeframeSecs
            && (if src.aggregates
                then art.astVersion == 2 && 1 <= art.windowSecs <= 300 && art.stateCap == 1024
                else art.astVersion == 1 && art.windowSecs == 0 && art.stateCap == 0 && !art.lookback)
  {
    hide Feeds;
    CompileExactly(src, reg);
    assert !NeedsServer(src, reg) && FeedsKnown(src, reg);
  }

  /** A server plan carries what the rule says. */
  lemma PlanSays(src: Source, reg: Registry)
    requires Compile(src, reg).Ok? && Compile(src, reg).value.plan.Some?
    ensures var plan := Compile(src, reg).value.plan.value;
            && plan.ruleId == src.id && plan.timeframeSecs == src.timeframeSecs
            && plan.lookback == src.lookback && plan.crossHost == src.crossHost
            && plan.joins == src.condition.Near? && plan.aggregates == src.aggregates && plan.feeds == Feeds(src)
  {
    hide Feeds;
  }

  // ----- the agent -----

  /** A pushed rule: what was stamped on the wire, and the rule itself. */
  datatype EdgeRule = EdgeRule(ruleId: string, astVersion: nat, windowSecs: nat, stateCap: nat, src: Source)

  datatype Refusal = AstVersionUnsupported | StateWindowTooLarge | StateCapTooLarge | CompileFailed

  datatype Verdict = Accept(art: EdgeArtefact) | Refuse(why: Refusal) | Skip

  function AgentVerdict(er: EdgeRule, reg: Registry): Verdict {
    if er.astVersion != 1 && er.astVersion != 2 then Refuse(AstVersionUnsupported)
    else if er.windowSecs > MAX_WINDOW_SECS then Refuse(StateWindowTooLarge)
    else if er.stateCap > MAX_STATE_CAP then Refuse(StateCapTooLarge)
    else
      var c := Compile(er.src, reg);
      if c.Err? then Refuse(CompileFailed)
      else if c.value.art.None? then Skip
      else Accept(c.value.art.value)
  }

  function Stamp(art: EdgeArtefact): EdgeRule {
    EdgeRule(art.src.id, art.astVersion, art.windowSecs, art.stateCap, art.src)
  }

  /** The agent's checks, in order: a version it knows, a window of at most 300
      seconds, at most 1024 keys, and a rule that compiles, to an artefact. */
  lemma VerdictExactly(er: EdgeRule, reg: Registry)
    ensures var v, known, c := AgentVerdict(er, reg), er.astVersion in {1, 2}, Compile(er.src, reg);
            && (v == Refuse(AstVersionUnsupported) <==> !known)
            && (v == Refuse(StateWindowTooLarge) <==> known && er.windowSecs > 300)
            && (v == Refuse(StateCapTooLarge) <==> known && er.windowSecs <= 300 && er.stateCap > 1024)
            && (v == Refuse(CompileFailed) <==> known && er.windowSecs <= 300 && er.stateCap <= 1024 && c.Err?)
            && (v == Skip <==>
                  known && er.windowSecs <= 300 && er.stateCap <= 1024 && c.Ok? && c.value.class_ == ServerOnly)
            && (v.Accept? ==> c.Ok? && c.value.art == Some(v.art))
  {
    hide Feeds;
    CompileExactly(er.src, reg);
  }

  /** An agent with the same registry takes every edge artefact just as it is, and
      so counts over the window the rule asked for. */
  lemma AgentNeverRefuses(src: Source, reg: Registry)
    requires Compile(src, reg).Ok? && Compile(src, reg).value.art.Some?
    ensures var art := Compile(src, reg).value.art.value;
            && AgentVerdict(Stamp(art), reg) == Accept(art)
            && Stamp(art).ruleId == src.id && Stamp(art).src == src && Stamp(art).windowSecs == src.timeframeSecs
            && Stamp(art).stateCap == (if src.aggregates then 1024 else 0)
            && Stamp(art).astVersion == (if src.aggregates then 2 else 1)
  {
    hide Feeds;
    EdgeBounds(src, reg);
  }

  datatype Warning = Warning(ruleId: string, why: Refusal)

  /** The loop over a pushed rule set: accepted artefacts and warnings, each in
      rule order, and nothing else. */
  method CompileRuleSet(rules: seq<EdgeRule>, reg: Registry) returns (parsed: seq<EdgeArtefact>, warnings: seq<Warning>)
    ensures parsed == AcceptedOf(rules, reg) && warnings == WarningsOf(rules, reg)
  {
    parsed, warnings := [], [];
    for i := 0 to |rules|
      invariant parsed == AcceptedOf(rules[..i], reg) && warnings == WarningsOf(rules[..i], reg)
    {
      var er := rules[i];
      assert rules[..i + 1][..i] == rules[..i];
      if er.astVersion != 1 && er.astVersion != 2 {
        warnings := warnings + [Warning(er.ruleId, AstVersionUnsupported)];
        continue;
      }
      if er.windowSecs > MAX_WINDOW_SECS {
        warnings := warnings + [Warning(er.ruleId, StateWindowTooLarge)];
        continue;
      }
      if er.stateCap > MAX_STATE_CAP {
        warnings := warnings + [Warning(er.ruleId, StateCapTooLarge)];
        continue;
      }
      var c := Compile(er.src, reg);
      if c.Err? {
        warnings := warnings + [Warning(er.ruleId, CompileFailed)];
        continue;
      }
      if c.value.art.None? {
        continue;
      }
      parsed := parsed + [c.value.art.value];
    }
    assert rules[..|rules|] == rules;
  }

  function AcceptedOf(rules: seq<EdgeRule>, reg: Registry): seq<EdgeArtefact> {
    if rules == [] then []
    else
      var v := AgentVerdict(rules[|rules| - 1], reg);
      AcceptedOf(rules[..|rules| - 1], reg) + if v.Accept? then [v.art] else []
  }

  function WarningsOf(rules: seq<EdgeRule>, reg: Registry): seq<Warning> {
    if rules == [] then []
    else
      var er := rules[|rules| - 1];
      var v := AgentVerdict(er, reg);
      WarningsOf(rules[..|rules| - 1], reg) + if v.Refuse? then [Warning(er.ruleId, v.why)] else []
  }

  /** Rule sets are handled rule by rule, each rule giving one artefact, one
      warning or nothing, as its verdict says. */
  lemma {:induction false} RuleByRule(rules: seq<EdgeRule>, er: EdgeRule, reg: Registry)
    ensures var v := AgentVerdict(er, reg);
            && AcceptedOf([er] + rules, reg) == (if v.Accept? then [v.art] else []) + AcceptedOf(rules, reg)
            && WarningsOf([er] + rules, reg)
                 == (if v.Refuse? then [Warning(er.ruleId, v.why)] else []) + WarningsOf(rules, reg)
    decreases |rules|
  {
    hide AgentVerdict;
    var all := [er] + rules;
    if rules == [] {
      assert all[..0] == [];
    } else {
      RuleByRule(rules[..|rules| - 1], er, reg);
      assert all[..|all| - 1] == [er] + rules[..|rules| - 1];
    }
  }

  /** A rule set made of compiled artefacts is loaded whole, without a warning. */
  lemma {:induction false} PushedRulesAllLoad(arts: seq<EdgeArtefact>, rules: seq<EdgeRule>, reg: Registry)
    requires |rules| == |arts| && forall i :: 0 <= i < |arts| ==> rules[i] == Stamp(arts[i])
    requires forall i :: 0 <= i < |arts| ==>
               Compile(arts[i].src, reg).Ok? && Compile(arts[i].src, reg).value.art == Some(arts[i])
    ensures AcceptedOf(rules, reg) == arts && WarningsOf(rules, reg) == []
  {
    if arts != [] {
      var n := |arts| - 1;
      PushedRulesAllLoad(arts[..n], rules[..n], reg);
      AgentNeverRefuses(arts[n].src, reg);
    }
  }
}
