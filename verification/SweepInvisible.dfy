/** The janitor's sweeps are invisible: whatever counts a run compares can be
    compared under any other placement of sweeps, even when the key cap forces
    evictions. Every run refines one abstract map of live timestamps that never
    hears about sweeps, and every choice of that map is realised by runs. */
module SweepInvisible {
  import opened Wrappers
  import opened Collections
  import opened RuleState
  import opened RuleRuns
  import opened LiveTable

  datatype Touch = Touch(now: int, key: string)

  /** A touch, and the live key that is given up for it, if any. */
  datatype Move = Move(touch: Touch, victim: Option<string>)

  /** A new key at the cap displaces one of the oldest live keys. */
  ghost predicate Allowed(cfg: Config, live: Stamps, tc: Touch, v: Option<string>) {
    if tc.key in live || |live| < Cap(cfg) then v.None? else v.Some? && OldestIn(live, v.value)
  }

  function Without(m: Stamps, k: Option<string>): Stamps { if k.Some? then m - {k.value} else m }

  /** A move on a map of live timestamps: make room, add the timestamp. */
  function Put(live: Stamps, mv: Move): Stamps {
    var kept := if mv.touch.key in live then live[mv.touch.key] else [];
    Without(live, mv.victim)[mv.touch.key := kept + [mv.touch.now]]
  }

  /** One move on the abstract map: forget what expired, then put. */
  function AbsTick(cfg: Config, m: Stamps, mv: Move): (m': Stamps)
    ensures mv.touch.key in m'
  {
    Put(Live(m, mv.touch.now - cfg.window), mv)
  }

  function AbsAfter(cfg: Config, ms: seq<Move>): Stamps {
    if ms == [] then map[] else AbsTick(cfg, AbsAfter(cfg, Front(ms)), Last(ms))
  }

  /** What is live for a touch at `now`. */
  function LiveAt(cfg: Config, ms: seq<Move>, now: int): Stamps { Live(AbsAfter(cfg, ms), now - cfg.window) }

  ghost predicate AbsLegal(cfg: Config, ms: seq<Move>) {
    ms != [] ==>
      AbsLegal(cfg, Front(ms)) && Allowed(cfg, LiveAt(cfg, Front(ms), Last(ms).touch.now), Last(ms).touch, Last(ms).victim)
  }

  function TouchesOf(ms: seq<Move>): seq<Touch> {
    if ms == [] then [] else TouchesOf(Front(ms)) + [Last(ms).touch]
  }

  /** The counts the abstract map gives to a sequence of moves. */
  function AbsCounts(cfg: Config, ms: seq<Move>): seq<nat> {
    if ms == [] then [] else AbsCounts(cfg, Front(ms)) + [|AbsAfter(cfg, ms)[Last(ms).touch.key]|]
  }

  /** A run with its sweeps left out. */
  function Touches(es: seq<Event>): seq<Touch> {
    if es == [] then []
    else if Last(es).Tick? then Touches(Front(es)) + [Touch(Last(es).now, Last(es).key)]
    else Touches(Front(es))
  }

  /** The counts a run compares, tick by tick. */
  function Counts(cfg: Config, es: seq<Event>): seq<nat> {
    if es == [] then []
    else if Last(es).Tick? then Counts(cfg, Front(es)) + [Counted(cfg, es)]
    else Counts(cfg, Front(es))
  }

  // ----- one tick refines one move -----

  /** What an eviction means for the live part: an expired victim is none. */
  function LiveVictim(live: Stamps, victim: Option<string>): Option<string> {
    if victim.Some? && victim.value in live then victim else None
  }

  lemma EvictedLive(t: Table, victim: Option<string>, cutoff: int)
    ensures var live := Live(StampsOf(t), cutoff);
            Live(StampsOf(Evicted(t, victim)), cutoff) == Without(live, LiveVictim(live, victim))
  {
    hide Live, StampsOf;
    if victim.Some? {
      EvictedStamps(t, victim.value);
      LiveRemove(StampsOf(t), victim.value, cutoff);
      var live := Live(StampsOf(t), cutoff);
      assert victim.value !in live ==> live - {victim.value} == live;
    }
  }

  /** An evicted key is either expired, or one the abstract map may give up. */
  lemma EvictionRefines(cfg: Config, t: Table, e: Event)
    requires Tidy(cfg, t, e.now) && e.Tick? && Legal(cfg, t, e)
    ensures var live := Live(StampsOf(t), e.now - cfg.window);
            Allowed(cfg, live, Touch(e.now, e.key), LiveVictim(live, e.victim))
  {
    hide Live, StampsOf, RingOk;
    var live := Live(StampsOf(t), e.now - cfg.window);
    LiveKeys(cfg, t, e.now, e.now - cfg.window);
    if e.victim.None? {
      RoomAmongLive(cfg, t, live, e.key);
    } else {
      AllLive(cfg, t, live, e.key);
      OldestLive(t, live, e.victim.value, e.now - cfg.window);
    }
  }

  /** Every choice of the abstract map is one the table can make. */
  lemma RealVictim(cfg: Config, t: Table, tc: Touch, v: Option<string>) returns (victim: Option<string>)
    requires Tidy(cfg, t, tc.now)
    requires Allowed(cfg, Live(StampsOf(t), tc.now - cfg.window), tc, v)
    ensures Legal(cfg, t, Tick(tc.now, tc.key, victim))
    ensures LiveVictim(Live(StampsOf(t), tc.now - cfg.window), victim) == v
  {
    hide Live, StampsOf, RingOk;
    var live := Live(StampsOf(t), tc.now - cfg.window);
    LiveKeys(cfg, t, tc.now, tc.now - cfg.window);
    if !MustEvict(cfg, t, tc.key) {
      RoomAmongLive(cfg, t, live, tc.key);
      victim := None;
    } else {
      AllLive(cfg, t, live, tc.key);
      if v.Some? {
        assert Oldest(t, v.value);
        victim := v;
      } else {
        var w := SomeOldestKey(cfg, t, tc.now);
        OldestLive(t, live, w, tc.now - cfg.window);
        victim := Some(w);
      }
    }
  }

  /** The table and the abstract map agree on what is live. */
  ghost predicate Agree(cfg: Config, t: Table, m: Stamps, now: int) {
    Live(StampsOf(t), now - cfg.window) == Live(m, now - cfg.window)
  }

  lemma TickRefines(cfg: Config, t: Table, e: Event, m: Stamps)
    requires Tidy(cfg, t, e.now) && e.Tick? && Legal(cfg, t, e) && Agree(cfg, t, m, e.now)
    ensures var live := Live(m, e.now - cfg.window);
            var mv := Move(Touch(e.now, e.key), LiveVictim(live, e.victim));
            && Allowed(cfg, live, mv.touch, mv.victim)
            && Live(StampsOf(Step(cfg, t, e)), e.now - cfg.window) == AbsTick(cfg, m, mv)
  {
    hide Live, StampsOf, Step, Tidy, Oldest, Legal, Allowed;
    VictimIsOther(cfg, t, e);
    LiveAfterTick(cfg, t, e);
    EvictedLive(t, e.victim, e.now - cfg.window);
    EvictionRefines(cfg, t, e);
  }

  // ----- whole runs -----

  /** Adding one more event to a run. */
  lemma OneMore(cfg: Config, es: seq<Event>, e: Event)
    ensures Front(es + [e]) == es && Last(es + [e]) == e
    ensures After(cfg, es + [e]) == Step(cfg, After(cfg, es), e)
    ensures LegalRun(cfg, es + [e]) <==> LegalRun(cfg, es) && Legal(cfg, After(cfg, es), e)
    ensures ClockForward(es + [e]) <==> ClockForward(es) && (es != [] ==> Last(es).now <= e.now)
    ensures Touches(es + [e]) == Touches(es) + if e.Tick? then [Touch(e.now, e.key)] else []
    ensures Counts(cfg, es + [e]) == Counts(cfg, es) + if e.Tick? then [Counted(cfg, es + [e])] else []
  {
    assert Front(es + [e]) == es;
  }

  lemma OneMoreMove(cfg: Config, ms: seq<Move>, mv: Move)
    ensures Front(ms + [mv]) == ms && Last(ms + [mv]) == mv
    ensures AbsAfter(cfg, ms + [mv]) == AbsTick(cfg, AbsAfter(cfg, ms), mv)
    ensures TouchesOf(ms + [mv]) == TouchesOf(ms) + [mv.touch]
    ensures AbsLegal(cfg, ms + [mv]) <==>
              AbsLegal(cfg, ms) && Allowed(cfg, LiveAt(cfg, ms, mv.touch.now), mv.touch, mv.victim)
    ensures AbsCounts(cfg, ms + [mv]) == AbsCounts(cfg, ms) + [|AbsAfter(cfg, ms + [mv])[mv.touch.key]|]
  {
    assert Front(ms + [mv]) == ms;
  }

  /** A run and a sequence of moves that tell the same story. */
  ghost predicate Mirrors(cfg: Config, es: seq<Event>, ms: seq<Move>) {
    && LegalRun(cfg, es) && ClockForward(es) && AbsLegal(cfg, ms)
    && Touches(es) == TouchesOf(ms) && Counts(cfg, es) == AbsCounts(cfg, ms)
    && (if es == [] then ms == [] else Agree(cfg, After(cfg, es), AbsAfter(cfg, ms), Last(es).now))
  }

  lemma AgreeLater(cfg: Config, es: seq<Event>, ms: seq<Move>, now: int)
    requires Mirrors(cfg, es, ms) && (es != [] ==> Last(es).now <= now)
    ensures Agree(cfg, After(cfg, es), AbsAfter(cfg, ms), now)
  {
    hide Live, StampsOf, LegalRun, ClockForward, Touches, Counts, After, AbsLegal, AbsAfter, AbsCounts, TouchesOf;
    if es == [] {
      EmptyAgrees(cfg, now);
    } else {
      SameLiveLater(StampsOf(After(cfg, es)), AbsAfter(cfg, ms), Last(es).now - cfg.window, now - cfg.window);
    }
  }

  lemma EmptyAgrees(cfg: Config, now: int)
    ensures Agree(cfg, After(cfg, []), AbsAfter(cfg, []), now)
  {
    assert StampsOf(map[]) == map[];
  }

  lemma MirrorSweep(cfg: Config, es: seq<Event>, ms: seq<Move>, now: int)
    requires Mirrors(cfg, es, ms) && (es != [] ==> Last(es).now <= now)
    ensures Mirrors(cfg, es + [Sweep(now)], ms)
  {
    hide Live, StampsOf, Swept, Oldest, LegalRun, ClockForward, Touches, Counts, Counted, After;
    hide AbsLegal, AbsAfter, AbsCounts, TouchesOf;
    AgreeLater(cfg, es, ms, now);
    OneMore(cfg, es, Sweep(now));
    LiveOfSwept(cfg, After(cfg, es), now);
  }

  lemma EmptyMirrors(cfg: Config)
    ensures Mirrors(cfg, [], [])
  {
  }

  lemma MirrorsSays(cfg: Config, es: seq<Event>, ms: seq<Move>)
    requires Mirrors(cfg, es, ms)
    ensures LegalRun(cfg, es) && ClockForward(es) && AbsLegal(cfg, ms)
    ensures Touches(es) == TouchesOf(ms) && Counts(cfg, es) == AbsCounts(cfg, ms)
  {
  }

  lemma MirrorTick(cfg: Config, es: seq<Event>, ms: seq<Move>, e: Event)
    requires Mirrors(cfg, es, ms) && e.Tick? && (es != [] ==> Last(es).now <= e.now)
    requires Legal(cfg, After(cfg, es), e)
    ensures var v := LiveVictim(LiveAt(cfg, ms, e.now), e.victim);
            Mirrors(cfg, es + [e], ms + [Move(Touch(e.now, e.key), v)])
  {
    hide Live, StampsOf, Step, LegalRun, ClockForward, Touches, Counts, Counted, After, Tidy, Legal;
    hide AbsLegal, AbsAfter, AbsTick, AbsCounts, TouchesOf, Allowed, LiveVictim;
    AgreeLater(cfg, es, ms, e.now);
    RunTidy(cfg, es, e.now);
    var t, m := After(cfg, es), AbsAfter(cfg, ms);
    var mv := Move(Touch(e.now, e.key), LiveVictim(LiveAt(cfg, ms, e.now), e.victim));
    OneMore(cfg, es, e);
    OneMoreMove(cfg, ms, mv);
    TickRefines(cfg, t, e, m);
    var m' := AbsTick(cfg, m, mv);
    LiveTwice(StampsOf(Step(cfg, t, e)), e.now - cfg.window, e.now - cfg.window);
    CountAgrees(cfg, es + [e], m');
  }

  lemma CountAgrees(cfg: Config, es: seq<Event>, m: Stamps)
    requires es != [] && Last(es).Tick? && Live(StampsOf(After(cfg, es)), Last(es).now - cfg.window) == m
    ensures Last(es).key in m && |m[Last(es).key]| == Counted(cfg, es)
  {
    HeldIsLive(cfg, es);
  }

  /** Every run is a sequence of allowed moves with the same ticks and counts. */
  lemma {:induction false} RunRefines(cfg: Config, es: seq<Event>) returns (ms: seq<Move>)
    requires LegalRun(cfg, es) && ClockForward(es)
    ensures Mirrors(cfg, es, ms)
  {
    if es == [] {
      ms := [];
    } else {
      var pre, e := Front(es), Last(es);
      assert es == pre + [e];
      ms := RunRefines(cfg, pre);
      hide Mirrors;
      if e.Sweep? {
        MirrorSweep(cfg, pre, ms, e.now);
      } else {
        MirrorTick(cfg, pre, ms, e);
        ms := ms + [Move(Touch(e.now, e.key), LiveVictim(LiveAt(cfg, ms, e.now), e.victim))];
      }
    }
  }

  predicate SameCall(e: Event, f: Event) {
    e.now == f.now && e.Tick? == f.Tick? && (e.Tick? ==> e.key == f.key)
  }

  /** The same ticks and sweeps, whichever victims the evictions pick. */
  predicate SameCalls(es: seq<Event>, fs: seq<Event>) {
    |es| == |fs| && forall i :: 0 <= i < |es| ==> SameCall(es[i], fs[i])
  }

  /** Every sequence of allowed moves is played by some run of any plan of ticks
      and sweeps with those ticks. */
  lemma {:induction false} MovesAreReal(cfg: Config, ms: seq<Move>, plan: seq<Event>) returns (es: seq<Event>)
    requires AbsLegal(cfg, ms) && ClockForward(plan) && Touches(plan) == TouchesOf(ms)
    ensures SameCalls(es, plan) && Mirrors(cfg, es, ms)
    decreases |plan|
  {
    hide Mirrors, AbsLegal, LegalRun, TouchesOf;
    if plan == [] {
      TouchesFront(ms);
      EmptyMirrors(cfg);
      es := [];
    } else if Last(plan).Sweep? {
      es := MovesAreReal(cfg, ms, Front(plan));
      MirrorSweep(cfg, es, ms, Last(plan).now);
      es := es + [Last(plan)];
    } else {
      LastTouch(plan, ms);
      LegalFront(cfg, ms);
      es := MovesAreReal(cfg, Front(ms), Front(plan));
      var e := RealTick(cfg, es, ms);
      es := es + [e];
    }
  }

  lemma TouchesFront(ms: seq<Move>)
    ensures TouchesOf(ms) == [] <==> ms == []
    ensures ms != [] ==> Front(TouchesOf(ms)) == TouchesOf(Front(ms)) && Last(TouchesOf(ms)) == Last(ms).touch
  {
  }

  lemma LegalFront(cfg: Config, ms: seq<Move>)
    requires ms != [] && AbsLegal(cfg, ms)
    ensures AbsLegal(cfg, Front(ms))
    ensures Allowed(cfg, LiveAt(cfg, Front(ms), Last(ms).touch.now), Last(ms).touch, Last(ms).victim)
  {
  }

  lemma LastTouch(plan: seq<Event>, ms: seq<Move>)
    requires plan != [] && Last(plan).Tick? && Touches(plan) == TouchesOf(ms)
    ensures ms != [] && Last(ms).touch == Touch(Last(plan).now, Last(plan).key)
    ensures Touches(Front(plan)) == TouchesOf(Front(ms))
  {
    TouchesFront(ms);
    assert Touches(Front(plan)) == Front(Touches(plan));
  }

  lemma RealTick(cfg: Config, es: seq<Event>, ms: seq<Move>) returns (e: Event)
    requires ms != [] && AbsLegal(cfg, ms) && Mirrors(cfg, es, Front(ms))
    requires es != [] ==> Last(es).now <= Last(ms).touch.now
    ensures SameCall(e, Tick(Last(ms).touch.now, Last(ms).touch.key, None)) && Mirrors(cfg, es + [e], ms)
  {
    hide Mirrors, AbsLegal, LegalRun, ClockForward, Allowed, Live, StampsOf, Tidy, Legal, LiveVictim, After, AbsAfter;
    var tc := Last(ms).touch;
    AgreeLater(cfg, es, Front(ms), tc.now);
    MirrorsSays(cfg, es, Front(ms));
    RunTidy(cfg, es, tc.now);
    LegalFront(cfg, ms);
    var victim := RealVictim(cfg, After(cfg, es), tc, Last(ms).victim);
    e := Tick(tc.now, tc.key, victim);
    MirrorTick(cfg, es, Front(ms), e);
    assert Front(ms) + [Last(ms)] == ms;
  }

  // ----- the theorems -----

  /** Sweeps are invisible, ties or not: whatever a run answers, some run of any
      other plan with the same ticks answers too, wherever and however often
      either of them sweeps. */
  lemma SweepsAreInvisible(cfg: Config, es: seq<Event>, plan: seq<Event>) returns (es': seq<Event>)
    requires LegalRun(cfg, es) && ClockForward(es) && ClockForward(plan) && Touches(plan) == Touches(es)
    ensures LegalRun(cfg, es') && SameCalls(es', plan) && Counts(cfg, es') == Counts(cfg, es)
  {
    var ms := RunRefines(cfg, es);
    es' := MovesAreReal(cfg, ms, plan);
  }

  /** The ticks of a sequence of touches, and nothing else. */
  function Ticks(tcs: seq<Touch>): seq<Event> {
    if tcs == [] then [] else Ticks(Front(tcs)) + [Tick(Last(tcs).now, Last(tcs).key, None)]
  }

  predicate InOrder(tcs: seq<Touch>) { forall i, j :: 0 <= i < j < |tcs| ==> tcs[i].now <= tcs[j].now }

  lemma OneMoreTick(es: seq<Event>, tc: Touch)
    ensures Touches(es + [Tick(tc.now, tc.key, None)]) == Touches(es) + [tc]
    ensures ClockForward(es) && (es != [] ==> Last(es).now <= tc.now) ==> ClockForward(es + [Tick(tc.now, tc.key, None)])
  {
    assert Front(es + [Tick(tc.now, tc.key, None)]) == es;
  }

  lemma OrderFront(tcs: seq<Touch>)
    requires tcs != []
    ensures InOrder(tcs) ==> InOrder(Front(tcs)) && (Front(tcs) != [] ==> Last(Front(tcs)).now <= Last(tcs).now)
  {
  }

  lemma {:induction false} TicksAre(tcs: seq<Touch>)
    ensures |Ticks(tcs)| == |tcs| && Touches(Ticks(tcs)) == tcs && forall i :: 0 <= i < |tcs| ==> Ticks(tcs)[i].Tick?
    ensures tcs != [] ==> Last(Ticks(tcs)).now == Last(tcs).now
    ensures InOrder(tcs) ==> ClockForward(Ticks(tcs))
  {
    if tcs != [] {
      TicksAre(Front(tcs));
      hide Touches, ClockForward, InOrder;
      OneMoreTick(Ticks(Front(tcs)), Last(tcs));
      OrderFront(tcs);
      assert Front(tcs) + [Last(tcs)] == tcs;
    }
  }

  lemma {:induction false} TouchesInOrder(es: seq<Event>)
    requires ClockForward(es)
    ensures InOrder(Touches(es)) && (Touches(es) != [] ==> es != [] && Last(Touches(es)).now <= Last(es).now)
  {
    if es != [] {
      TouchesInOrder(Front(es));
    }
  }

  /** In particular some run that never sweeps answers as a given run does. */
  lemma SweepFreeTwin(cfg: Config, es: seq<Event>) returns (es': seq<Event>)
    requires LegalRun(cfg, es) && ClockForward(es)
    ensures LegalRun(cfg, es') && ClockForward(es') && forall i :: 0 <= i < |es'| ==> es'[i].Tick?
    ensures Touches(es') == Touches(es) && Counts(cfg, es') == Counts(cfg, es)
  {
    TouchesInOrder(es);
    TicksAre(Touches(es));
    var ms := RunRefines(cfg, es);
    es' := MovesAreReal(cfg, ms, Ticks(Touches(es)));
  }

  /** The abstract map never exceeds the cap. */
  lemma {:induction false} CapRespected(cfg: Config, ms: seq<Move>)
    requires AbsLegal(cfg, ms)
    ensures |AbsAfter(cfg, ms)| <= Cap(cfg)
  {
    hide Live, Put, Allowed;
    if ms != [] {
      CapRespected(cfg, Front(ms));
      var m, mv := AbsAfter(cfg, Front(ms)), Last(ms);
      LiveIsSmaller(m, mv.touch.now - cfg.window);
      PutCap(cfg, Live(m, mv.touch.now - cfg.window), mv);
    }
  }

  lemma PutCap(cfg: Config, live: Stamps, mv: Move)
    requires |live| <= Cap(cfg) && Allowed(cfg, live, mv.touch, mv.victim)
    ensures |Put(live, mv)| <= Cap(cfg)
  {
    hide Last;
    var m' := Put(live, mv);
    if mv.victim.Some? {
      assert m'.Keys == live.Keys - {mv.victim.value} + {mv.touch.key};
    } else {
      assert m'.Keys == live.Keys + {mv.touch.key};
    }
  }
}
