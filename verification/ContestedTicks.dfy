/** Which key an eviction takes is up to the map's iteration order when several
    are equally old. That can be told from later counts if and only if a tick is
    contested: it has to displace one of two equally old live keys. */
module ContestedTicks {
  import opened Wrappers
  import opened Collections
  import opened RuleState
  import opened RuleRuns
  import opened LiveTable
  import opened SweepInvisible

  /** A tick that has to displace a live key while two are equally old. */
  ghost predicate Contested(cfg: Config, live: Stamps, tc: Touch) {
    && tc.key !in live && |live| >= Cap(cfg)
    && exists a, b :: a != b && OldestIn(live, a) && OldestIn(live, b)
  }

  ghost function SomeVictim(cfg: Config, live: Stamps, tc: Touch): Option<string> {
    if exists v :: Allowed(cfg, live, tc, v) then
      var v :| Allowed(cfg, live, tc, v);
      v
    else None
  }

  /** One way to play a sequence of touches. */
  ghost function SomePath(cfg: Config, tcs: seq<Touch>): seq<Move> {
    if tcs == [] then []
    else
      var ms := SomePath(cfg, Front(tcs));
      ms + [Move(Last(tcs), SomeVictim(cfg, LiveAt(cfg, ms, Last(tcs).now), Last(tcs)))]
  }

  /** No tick is contested when it comes. */
  ghost predicate NeverContested(cfg: Config, tcs: seq<Touch>) {
    tcs != [] ==>
      && NeverContested(cfg, Front(tcs))
      && !Contested(cfg, LiveAt(cfg, SomePath(cfg, Front(tcs)), Last(tcs).now), Last(tcs))
  }

  // ----- one way to play uncontested touches -----

  lemma AllowedExists(cfg: Config, m: Stamps, tc: Touch, cutoff: int)
    ensures exists v :: Allowed(cfg, Live(m, cutoff), tc, v)
  {
    var live := Live(m, cutoff);
    if tc.key in live || |live| < Cap(cfg) {
      assert Allowed(cfg, live, tc, None);
    } else {
      SomeOldest(live);
      var k :| OldestIn(live, k);
      assert Allowed(cfg, live, tc, Some(k));
    }
  }

  lemma {:induction false} SomePathLegal(cfg: Config, tcs: seq<Touch>)
    ensures AbsLegal(cfg, SomePath(cfg, tcs)) && TouchesOf(SomePath(cfg, tcs)) == tcs
  {
    hide Live, Allowed, AbsTick;
    if tcs != [] {
      SomePathLegal(cfg, Front(tcs));
      var ms, tc := SomePath(cfg, Front(tcs)), Last(tcs);
      AllowedExists(cfg, AbsAfter(cfg, ms), tc, tc.now - cfg.window);
      OneMoreMove(cfg, ms, Move(tc, SomeVictim(cfg, LiveAt(cfg, ms, tc.now), tc)));
      assert Front(tcs) + [tc] == tcs;
    }
  }

  /** Uncontested touches can be played in one way only. */
  lemma {:induction false} OnlyPath(cfg: Config, ms: seq<Move>)
    requires AbsLegal(cfg, ms) && NeverContested(cfg, TouchesOf(ms))
    ensures ms == SomePath(cfg, TouchesOf(ms))
  {
    hide Live, AbsTick, OldestIn;
    if ms != [] {
      var tcs := TouchesOf(ms);
      assert Front(tcs) == TouchesOf(Front(ms));
      OnlyPath(cfg, Front(ms));
      SomePathLegal(cfg, tcs);
      var live := LiveAt(cfg, Front(ms), Last(tcs).now);
      OneVictim(cfg, live, Last(tcs), Last(ms).victim, SomeVictim(cfg, live, Last(tcs)));
      assert ms == Front(ms) + [Last(ms)];
    }
  }

  lemma OneVictim(cfg: Config, live: Stamps, tc: Touch, v: Option<string>, w: Option<string>)
    requires Allowed(cfg, live, tc, v) && !Contested(cfg, live, tc)
    requires (exists u :: Allowed(cfg, live, tc, u)) ==> Allowed(cfg, live, tc, w)
    ensures v == w
  {
    hide OldestIn;
  }

  /** The answer to a tick does not depend on whom it displaces. */
  lemma SameLastCount(cfg: Config, ms: seq<Move>, mv: Move, mv': Move)
    requires mv.touch == mv'.touch
    ensures AbsCounts(cfg, ms + [mv]) == AbsCounts(cfg, ms + [mv'])
  {
    hide Live, AbsCounts;
    OneMoreMove(cfg, ms, mv);
    OneMoreMove(cfg, ms, mv');
  }

  // ----- the theorem -----

  /** All runs with the same ticks, these being a beginning of `tcs` and then any
      one tick, compare the same counts. */
  ghost predicate Determined(cfg: Config, tcs: seq<Touch>) {
    forall es, es' ::
      && LegalRun(cfg, es) && ClockForward(es) && LegalRun(cfg, es') && ClockForward(es')
      && Touches(es) == Touches(es') && Touches(es) != [] && Front(Touches(es)) <= tcs
      ==> Counts(cfg, es) == Counts(cfg, es')
  }

  /** The ticks determine the answers, sweeps and map order notwithstanding, if
      and only if no tick is contested. */
  lemma DeterminedExactly(cfg: Config, tcs: seq<Touch>)
    requires InOrder(tcs)
    ensures Determined(cfg, tcs) <==> NeverContested(cfg, tcs)
  {
    hide LegalRun, ClockForward, Touches, Counts, NeverContested, Contested, LiveAt, SomePath, InOrder;
    if NeverContested(cfg, tcs) {
      forall es, es' |
        && LegalRun(cfg, es) && ClockForward(es) && LegalRun(cfg, es') && ClockForward(es')
        && Touches(es) == Touches(es') && Touches(es) != [] && Front(Touches(es)) <= tcs
        ensures Counts(cfg, es) == Counts(cfg, es')
      {
        UncontestedPrefix(cfg, tcs, |Touches(es)| - 1);
        assert Front(Touches(es)) == tcs[..|Touches(es)| - 1];
        SameTicksSameCounts(cfg, es, es');
      }
    } else {
      var n := ContestedTick(cfg, tcs);
      var es, es' := ContestShows(cfg, tcs, n);
    }
  }

  lemma {:induction false} UncontestedPrefix(cfg: Config, tcs: seq<Touch>, n: nat)
    requires NeverContested(cfg, tcs) && n <= |tcs|
    ensures NeverContested(cfg, tcs[..n])
  {
    hide Contested, SomePath, LiveAt;
    if n == |tcs| {
      assert tcs[..n] == tcs;
    } else {
      UncontestedPrefix(cfg, Front(tcs), n);
      assert Front(tcs)[..n] == tcs[..n];
    }
  }

  /** With no tick but perhaps the last contested, equal ticks mean equal counts. */
  lemma SameTicksSameCounts(cfg: Config, es: seq<Event>, es': seq<Event>)
    requires LegalRun(cfg, es) && ClockForward(es) && LegalRun(cfg, es') && ClockForward(es')
    requires Touches(es) == Touches(es')
    requires Touches(es) != [] ==> NeverContested(cfg, Front(Touches(es)))
    ensures Counts(cfg, es) == Counts(cfg, es')
  {
    hide LegalRun, ClockForward, Touches, Counts, Mirrors, AbsLegal, TouchesOf, AbsCounts, NeverContested;
    var ms := RunRefines(cfg, es);
    var ms' := RunRefines(cfg, es');
    MirrorsSays(cfg, es, ms);
    MirrorsSays(cfg, es', ms');
    SamePathSameCounts(cfg, ms, ms');
  }

  lemma SamePathSameCounts(cfg: Config, ms: seq<Move>, ms': seq<Move>)
    requires AbsLegal(cfg, ms) && AbsLegal(cfg, ms') && TouchesOf(ms) == TouchesOf(ms')
    requires TouchesOf(ms) != [] ==> NeverContested(cfg, Front(TouchesOf(ms)))
    ensures AbsCounts(cfg, ms) == AbsCounts(cfg, ms')
  {
    hide AbsLegal, AbsCounts, NeverContested, TouchesOf, SomePath, Allowed, LiveAt;
    TouchesFront(ms);
    TouchesFront(ms');
    if ms != [] {
      LegalFront(cfg, ms);
      LegalFront(cfg, ms');
      OnlyPath(cfg, Front(ms));
      OnlyPath(cfg, Front(ms'));
      SameLastCount(cfg, Front(ms), Last(ms), Last(ms'));
      assert ms == Front(ms) + [Last(ms)] && ms' == Front(ms) + [Last(ms')];
    }
  }

  lemma {:induction false} ContestedTick(cfg: Config, tcs: seq<Touch>) returns (n: nat)
    requires !NeverContested(cfg, tcs)
    ensures n < |tcs| && Contested(cfg, LiveAt(cfg, SomePath(cfg, tcs[..n]), tcs[n].now), tcs[n])
  {
    hide Contested, LiveAt, SomePath;
    if NeverContested(cfg, Front(tcs)) {
      n := |tcs| - 1;
      assert tcs[..n] == Front(tcs);
    } else {
      n := ContestedTick(cfg, Front(tcs));
      assert Front(tcs)[..n] == tcs[..n];
    }
  }

  /** A contested tick shows: evict one or the other of two equally old keys, and
      the next tick on the first counts 1 in one run and more in the other. */
  lemma ContestShows(cfg: Config, tcs: seq<Touch>, n: nat) returns (es: seq<Event>, es': seq<Event>)
    requires InOrder(tcs) && n < |tcs|
    requires Contested(cfg, LiveAt(cfg, SomePath(cfg, tcs[..n]), tcs[n].now), tcs[n])
    ensures LegalRun(cfg, es) && ClockForward(es) && LegalRun(cfg, es') && ClockForward(es')
    ensures Touches(es) == Touches(es') != [] && Front(Touches(es)) == tcs[..n + 1]
    ensures Counts(cfg, es) != Counts(cfg, es')
  {
    hide LegalRun, ClockForward, Touches, Counts, LiveAt, OldestIn;
    hide Mirrors, AbsLegal, TouchesOf, AbsCounts, Ticks, SomePath;
    var ms, tc := SomePath(cfg, tcs[..n]), tcs[n];
    SomePathLegal(cfg, tcs[..n]);
    var a, b :| a != b && OldestIn(LiveAt(cfg, ms, tc.now), a) && OldestIn(LiveAt(cfg, ms, tc.now), b);
    var next := Touch(tc.now, a);
    var path, path' := Forked(cfg, ms, tc, a, b);
    var tcs' := tcs[..n] + [tc] + [next];
    assert tcs[..n + 1] == tcs[..n] + [tc] && Front(tcs') == tcs[..n + 1];
    TicksAre(tcs');
    es := MovesAreReal(cfg, path, Ticks(tcs'));
    es' := MovesAreReal(cfg, path', Ticks(tcs'));
    MirrorsSays(cfg, es, path);
    MirrorsSays(cfg, es', path');
  }

  lemma Forked(cfg: Config, ms: seq<Move>, tc: Touch, a: string, b: string)
    returns (path: seq<Move>, path': seq<Move>)
    requires AbsLegal(cfg, ms) && tc.key !in LiveAt(cfg, ms, tc.now) && |LiveAt(cfg, ms, tc.now)| >= Cap(cfg)
    requires a != b && OldestIn(LiveAt(cfg, ms, tc.now), a) && OldestIn(LiveAt(cfg, ms, tc.now), b)
    ensures AbsLegal(cfg, path) && AbsLegal(cfg, path')
    ensures TouchesOf(path) == TouchesOf(path') == TouchesOf(ms) + [tc] + [Touch(tc.now, a)]
    ensures AbsCounts(cfg, path) != AbsCounts(cfg, path')
  {
    hide Live, AbsTick;
    var next := Touch(tc.now, a);
    var m1, m2 := ms + [Move(tc, Some(a))], ms + [Move(tc, Some(b))];
    OneMoreMove(cfg, ms, Move(tc, Some(a)));
    OneMoreMove(cfg, ms, Move(tc, Some(b)));
    AllowedExists(cfg, AbsAfter(cfg, m1), next, next.now - cfg.window);
    AllowedExists(cfg, AbsAfter(cfg, m2), next, next.now - cfg.window);
    var v :| Allowed(cfg, LiveAt(cfg, m1, next.now), next, v);
    var w :| Allowed(cfg, LiveAt(cfg, m2, next.now), next, w);
    path, path' := m1 + [Move(next, v)], m2 + [Move(next, w)];
    OneMoreMove(cfg, m1, Move(next, v));
    OneMoreMove(cfg, m2, Move(next, w));
    DisplacedCountsOne(cfg, AbsAfter(cfg, ms), tc, a, Some(a), v);
    DisplacedCountsOne(cfg, AbsAfter(cfg, ms), tc, a, Some(b), w);
    assert Last(AbsCounts(cfg, path)) != Last(AbsCounts(cfg, path'));
  }

  /** The count of a tick on `a` right after a tick that displaced `v`. */
  lemma DisplacedCountsOne(cfg: Config, m: Stamps, tc: Touch, a: string, v: Option<string>, w: Option<string>)
    requires a in Live(m, tc.now - cfg.window) && a != tc.key
    ensures var m' := AbsTick(cfg, AbsTick(cfg, m, Move(tc, v)), Move(Touch(tc.now, a), w));
            if v == Some(a) then |m'[a]| == 1 else |m'[a]| >= 2
  {
    hide Live, Put, Trim;
    var cutoff := tc.now - cfg.window;
    var live := Live(m, cutoff);
    var m1 := AbsTick(cfg, m, Move(tc, v));
    PutOther(live, Move(tc, v), a);
    LiveKey(m, a, cutoff);
    LiveKey(m1, a, cutoff);
    if a in m {
      TrimTwice(m[a], cutoff, cutoff);
    }
    PutSelf(Live(m1, cutoff), Move(Touch(tc.now, a), w));
  }

  lemma PutOther(live: Stamps, mv: Move, k: string)
    requires k != mv.touch.key
    ensures k in Put(live, mv) <==> k in live && mv.victim != Some(k)
    ensures k in Put(live, mv) ==> Put(live, mv)[k] == live[k]
  {
  }

  lemma PutSelf(live: Stamps, mv: Move)
    ensures var k := mv.touch.key;
            k in Put(live, mv) && Put(live, mv)[k] == (if k in live then live[k] else []) + [mv.touch.now]
  {
  }

  // ----- clocks that tell keys apart -----

  /** No two keys at the same instant. */
  predicate NoTies(tcs: seq<Touch>) {
    forall i, j :: 0 <= i < j < |tcs| && tcs[i].now == tcs[j].now ==> tcs[i].key == tcs[j].key
  }

  /** A clock that tells keys apart is enough, and a strict one all the more. */
  lemma {:induction false} NoTiesUncontested(cfg: Config, tcs: seq<Touch>)
    requires NoTies(tcs)
    ensures NeverContested(cfg, tcs)
  {
    if tcs != [] {
      NoTiesUncontested(cfg, Front(tcs));
      var ms, tc := SomePath(cfg, Front(tcs)), Last(tcs);
      SomePathLegal(cfg, Front(tcs));
      var live := LiveAt(cfg, ms, tc.now);
      forall a, b | a != b && OldestIn(live, a) && OldestIn(live, b)
        ensures false
      {
        LastIsTouch(cfg, ms, a, tc.now);
        LastIsTouch(cfg, ms, b, tc.now);
        TwoTouches(Front(tcs), Touch(Last(live[a]), a), Touch(Last(live[b]), b));
      }
    }
  }

  lemma TwoTouches(tcs: seq<Touch>, x: Touch, y: Touch)
    requires NoTies(tcs) && x in tcs && y in tcs && x.now == y.now
    ensures x.key == y.key
  {
    var i :| 0 <= i < |tcs| && tcs[i] == x;
    var j :| 0 <= j < |tcs| && tcs[j] == y;
    assert i < j ==> tcs[i].key == tcs[j].key;
    assert j < i ==> tcs[j].key == tcs[i].key;
  }

  /** A live key's last timestamp is one of its own touches. */
  lemma LastIsTouch(cfg: Config, ms: seq<Move>, k: string, now: int)
    requires k in LiveAt(cfg, ms, now)
    ensures LiveAt(cfg, ms, now)[k] != [] && Touch(Last(LiveAt(cfg, ms, now)[k]), k) in TouchesOf(ms)
  {
    hide Live, Trim, AbsAfter, TouchesOf;
    LiveKey(AbsAfter(cfg, ms), k, now - cfg.window);
    StampIsTouch(cfg, ms, k);
    var i := TrimAt(AbsAfter(cfg, ms)[k], now - cfg.window);
  }

  lemma {:induction false} StampIsTouch(cfg: Config, ms: seq<Move>, k: string)
    requires k in AbsAfter(cfg, ms)
    ensures AbsAfter(cfg, ms)[k] != [] && Touch(Last(AbsAfter(cfg, ms)[k]), k) in TouchesOf(ms)
  {
    hide Live, Put, Trim;
    var pre, mv := Front(ms), Last(ms);
    var live := LiveAt(cfg, pre, mv.touch.now);
    if k == mv.touch.key {
      PutSelf(live, mv);
      assert mv.touch == Last(TouchesOf(ms));
    } else {
      PutOther(live, mv, k);
      LiveKey(AbsAfter(cfg, pre), k, mv.touch.now - cfg.window);
      StampIsTouch(cfg, pre, k);
      var i := TrimAt(AbsAfter(cfg, pre)[k], mv.touch.now - cfg.window);
    }
  }

  // ----- an example -----

  /** A concrete contest: two keys at the same instant, one of which has to go,
      and a later tick that tells which. */
  lemma TiesMatter() returns (cfg: Config, es: seq<Event>, es': seq<Event>)
    ensures LegalRun(cfg, es) && ClockForward(es) && LegalRun(cfg, es') && ClockForward(es')
    ensures Touches(es) == Touches(es') && es != [] && es' != [] && Last(es).Tick? && Last(es').Tick?
    ensures Counted(cfg, es) == 1 && Counted(cfg, es') == 2
  {
    hide LegalRun, ClockForward, Touches, After;
    cfg := Config(10, 2);
    var two: Table := map["a" := Ring([0], 0), "b" := Ring([0], 0)];
    var start := TwoTies(cfg, two);
    var out, out' := Tick(1, "c", Some("a")), Tick(1, "c", Some("b"));
    OneMore(cfg, start, out);
    OneMore(cfg, start, out');
    var back, back' := Tick(2, "a", Some("b")), Tick(2, "a", None);
    es, es' := start + [out] + [back], start + [out'] + [back'];
    OneMore(cfg, start + [out], back);
    OneMore(cfg, start + [out'], back');
    hide Step, Legal;
    OldOneGone(cfg, two);
    OldOneKept(cfg, two);
  }

  lemma OldOneGone(cfg: Config, two: Table)
    requires cfg == Config(10, 2) && two == map["a" := Ring([0], 0), "b" := Ring([0], 0)]
    ensures var out, back := Tick(1, "c", Some("a")), Tick(2, "a", Some("b"));
            var t := Step(cfg, two, out);
            && Legal(cfg, two, out) && Legal(cfg, t, back)
            && "a" in Step(cfg, t, back) && |Step(cfg, t, back)["a"].timestamps| == 1
  {
    assert two - {"a"} == map["b" := Ring([0], 0)] && [] + [1] == [1];
    assert Step(cfg, two, Tick(1, "c", Some("a"))) == map["b" := Ring([0], 0), "c" := Ring([1], 1)];
  }

  lemma OldOneKept(cfg: Config, two: Table)
    requires cfg == Config(10, 2) && two == map["a" := Ring([0], 0), "b" := Ring([0], 0)]
    ensures var out, back := Tick(1, "c", Some("b")), Tick(2, "a", None);
            var t := Step(cfg, two, out);
            && Legal(cfg, two, out) && Legal(cfg, t, back)
            && "a" in Step(cfg, t, back) && |Step(cfg, t, back)["a"].timestamps| == 2
  {
    assert two - {"b"} == map["a" := Ring([0], 0)] && [] + [1] == [1];
    assert Step(cfg, two, Tick(1, "c", Some("b"))) == map["a" := Ring([0], 0), "c" := Ring([1], 1)];
  }

  lemma TwoTies(cfg: Config, two: Table) returns (es: seq<Event>)
    requires cfg == Config(10, 2) && two == map["a" := Ring([0], 0), "b" := Ring([0], 0)]
    ensures LegalRun(cfg, es) && ClockForward(es) && After(cfg, es) == two && es != [] && Last(es).now == 0
  {
    hide LegalRun, ClockForward, Touches, After;
    var a, b := Tick(0, "a", None), Tick(0, "b", None);
    NoEvents(cfg);
    OneMore(cfg, [], a);
    OneMore(cfg, [] + [a], b);
    es := [] + [a] + [b];
    assert [] + [0] == [0];
    assert Step(cfg, map[], a) == map["a" := Ring([0], 0)];
    assert Step(cfg, map["a" := Ring([0], 0)], b) == two;
  }

  lemma NoEvents(cfg: Config)
    ensures After(cfg, []) == map[] && LegalRun(cfg, []) && ClockForward([])
  {
  }
}
