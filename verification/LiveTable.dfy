/** What is live in the sliding-window table: the rings with their expired heads
    cut off, how a tick, a sweep and an eviction change them, and the bound on
    the number of keys. */
module LiveTable {
  import opened Wrappers
  import opened Collections
  import opened RuleState
  import opened RuleRuns

  type Stamps = map<string, seq<int>>

  /** Every ring trimmed, emptied rings removed. */
  function Live(m: Stamps, cutoff: int): Stamps {
    map k | k in m && Trim(m[k], cutoff) != [] :: Trim(m[k], cutoff)
  }

  function StampsOf(t: Table): Stamps { map k | k in t :: t[k].timestamps }

  ghost predicate OldestIn(m: Stamps, k: string) {
    k in m && m[k] != [] && forall k' :: k' in m && m[k'] != [] ==> Last(m[k]) <= Last(m[k'])
  }

  /** The cap on keys; a configured cap of 0 still admits one. */
  function Cap(cfg: Config): nat { if cfg.maxKeys == 0 then 1 else cfg.maxKeys }

  // ----- live maps -----

  lemma LiveTwice(m: Stamps, c: int, d: int)
    requires c <= d
    ensures Live(Live(m, c), d) == Live(m, d)
  {
    forall k | k in m
      ensures Trim(Trim(m[k], c), d) == Trim(m[k], d)
    {
      TrimTwice(m[k], c, d);
    }
  }

  lemma SameLiveLater(m: Stamps, n: Stamps, c: int, d: int)
    requires Live(m, c) == Live(n, c) && c <= d
    ensures Live(m, d) == Live(n, d)
  {
    LiveTwice(m, c, d);
    LiveTwice(n, c, d);
  }

  lemma LiveOfSwept(cfg: Config, t: Table, now: int)
    ensures Live(StampsOf(Swept(cfg, t, now)), now - cfg.window) == Live(StampsOf(t), now - cfg.window)
  {
    hide Trim;
    assert StampsOf(Swept(cfg, t, now)) == Live(StampsOf(t), now - cfg.window);
    LiveTwice(StampsOf(t), now - cfg.window, now - cfg.window);
  }

  /** A ring survives trimming exactly when its last timestamp is live. */
  lemma LiveByLast(ts: seq<int>, cutoff: int)
    requires ts != [] && Ascending(ts)
    ensures Trim(ts, cutoff) != [] <==> Last(ts) >= cutoff
    ensures Trim(ts, cutoff) != [] ==> Last(Trim(ts, cutoff)) == Last(ts)
  {
    var i := TrimAt(ts, cutoff);
  }

  /** Trimming before appending is not visible through `Live`. */
  lemma LivePush(m: Stamps, key: string, kept: seq<int>, cutoff: int, now: int)
    requires now >= cutoff && (kept == [] || kept[0] >= cutoff)
    ensures Live(m[key := kept + [now]], cutoff) == Live(m, cutoff)[key := kept + [now]]
  {
  }

  lemma LiveRemove(m: Stamps, key: string, cutoff: int)
    ensures Live(m - {key}, cutoff) == Live(m, cutoff) - {key}
  {
  }

  // ----- the table's own invariant -----

  /** Non-empty, ascending, last touched when last stamped, not in the future. */
  predicate RingOk(r: Ring, now: int) {
    && r.timestamps != [] && Ascending(r.timestamps)
    && r.lastTouch == Last(r.timestamps) && r.lastTouch <= now
  }

  ghost predicate Tidy(cfg: Config, t: Table, now: int) {
    (forall k :: k in t ==> RingOk(t[k], now)) && |t| <= Cap(cfg)
  }

  lemma SubmapSize<K, V, W>(m: map<K, V>, n: map<K, W>)
    requires m.Keys <= n.Keys
    ensures |m| <= |n| && (|m| == |n| ==> m.Keys == n.Keys)
  {
    SubsetSize(m.Keys, n.Keys);
  }

  lemma TrimmedRingOk(r: Ring, now: int, cutoff: int)
    requires RingOk(r, now) && Trim(r.timestamps, cutoff) != []
    ensures RingOk(r.(timestamps := Trim(r.timestamps, cutoff)), now)
  {
    var i := TrimAt(r.timestamps, cutoff);
  }

  lemma StampedRingOk(r: Ring, cutoff: int, now: int)
    requires RingOk(r, now)
    ensures RingOk(Ring(Trim(r.timestamps, cutoff) + [now], now), now)
  {
    var i := TrimAt(r.timestamps, cutoff);
    assert forall j :: 0 <= j < |r.timestamps| ==> r.timestamps[j] <= Last(r.timestamps);
  }

  lemma StepTidy(cfg: Config, t: Table, e: Event)
    requires Tidy(cfg, t, e.now) && Legal(cfg, t, e)
    ensures Tidy(cfg, Step(cfg, t, e), e.now)
  {
    hide Trim, RingOk, Oldest;
    StepRespectsCap(cfg, t, e);
    var t' := Step(cfg, t, e);
    forall k | k in t'
      ensures RingOk(t'[k], e.now)
    {
      if e.Sweep? {
        TrimmedRingOk(t[k], e.now, e.now - cfg.window);
      } else if k == e.key {
        FreshRingOk(cfg, t, e);
      }
    }
  }

  lemma FreshRingOk(cfg: Config, t: Table, e: Event)
    requires e.Tick? && forall k :: k in t ==> RingOk(t[k], e.now)
    ensures RingOk(Step(cfg, t, e)[e.key], e.now)
  {
    hide Trim;
    if e.key in Evicted(t, e.victim) {
      StampedRingOk(t[e.key], e.now - cfg.window, e.now);
    } else {
      assert Ascending([] + [e.now]);
    }
  }

  lemma TidyLater(cfg: Config, t: Table, now: int, later: int)
    requires Tidy(cfg, t, now) && now <= later
    ensures Tidy(cfg, t, later)
  {
  }

  lemma {:induction false} RunTidy(cfg: Config, es: seq<Event>, now: int)
    requires LegalRun(cfg, es) && ClockForward(es) && (es != [] ==> Last(es).now <= now)
    ensures Tidy(cfg, After(cfg, es), now)
  {
    hide Step, Legal, RingOk;
    if es != [] {
      RunTidy(cfg, Front(es), Last(es).now);
      StepTidy(cfg, After(cfg, Front(es)), Last(es));
      TidyLater(cfg, After(cfg, es), Last(es).now, now);
    }
  }

  // ----- what is live, and what an eviction leaves of it -----

  /** What is live in a tidy table. */
  lemma LiveKeys(cfg: Config, t: Table, now: int, cutoff: int)
    requires Tidy(cfg, t, now)
    ensures var live := Live(StampsOf(t), cutoff);
            && live.Keys <= t.Keys
            && (forall k :: k in t ==> (k in live <==> t[k].lastTouch >= cutoff))
            && (forall k :: k in live ==> live[k] != [] && Last(live[k]) == t[k].lastTouch)
  {
    forall k | k in t
      ensures k in Live(StampsOf(t), cutoff) <==> t[k].lastTouch >= cutoff
      ensures k in Live(StampsOf(t), cutoff) ==> Last(Live(StampsOf(t), cutoff)[k]) == t[k].lastTouch
    {
      assert RingOk(t[k], now);
      LiveByLast(t[k].timestamps, cutoff);
    }
  }

  /** The tick's effect on the live part, before asking which key is evicted. */
  lemma LiveAfterTick(cfg: Config, t: Table, e: Event)
    requires e.Tick? && e.victim != Some(e.key)
    ensures var cutoff := e.now - cfg.window;
            var live := Live(StampsOf(Evicted(t, e.victim)), cutoff);
            Live(StampsOf(Step(cfg, t, e)), cutoff)
              == live[e.key := (if e.key in live then live[e.key] else []) + [e.now]]
  {
    hide Trim;
    var t1, cutoff := Evicted(t, e.victim), e.now - cfg.window;
    var m := StampsOf(t1);
    var kept := if e.key in t1 then Trim(m[e.key], cutoff) else [];
    if e.key in t1 {
      var i := TrimAt(m[e.key], cutoff);
    }
    LivePush(m, e.key, kept, cutoff, e.now);
    assert StampsOf(Step(cfg, t, e)) == m[e.key := kept + [e.now]];
  }

  lemma EvictedStamps(t: Table, v: string)
    ensures StampsOf(Evicted(t, Some(v))) == StampsOf(t) - {v}
  {
  }

  lemma VictimIsOther(cfg: Config, t: Table, e: Event)
    requires e.Tick? && Legal(cfg, t, e)
    ensures e.victim != Some(e.key) && (e.key in t ==> e.victim.None?)
  {
  }

  /** Without an eviction there is room among the live keys. */
  lemma RoomAmongLive(cfg: Config, t: Table, live: Stamps, key: string)
    requires live.Keys <= t.Keys && |t| <= Cap(cfg) && !MustEvict(cfg, t, key)
    ensures key in live || |live| < Cap(cfg)
  {
    SubmapSize(live, t);
  }

  /** With an eviction and no room among the live keys, all keys are live. */
  lemma AllLive(cfg: Config, t: Table, live: Stamps, key: string)
    requires live.Keys <= t.Keys && |t| <= Cap(cfg) && MustEvict(cfg, t, key)
    ensures key !in live && (|live| >= Cap(cfg) <==> live.Keys == t.Keys)
  {
    SubmapSize(live, t);
  }

  /** If the oldest key of a table is live, all are, and it is the oldest live one. */
  lemma OldestLive(t: Table, live: Stamps, v: string, cutoff: int)
    requires Oldest(t, v) && live.Keys <= t.Keys
    requires forall k :: k in t ==> (k in live <==> t[k].lastTouch >= cutoff)
    requires forall k :: k in live ==> live[k] != [] && Last(live[k]) == t[k].lastTouch
    ensures v in live <==> live.Keys == t.Keys
    ensures v in live ==> OldestIn(live, v)
  {
  }

  lemma SomeOldestKey(cfg: Config, t: Table, now: int) returns (w: string)
    requires Tidy(cfg, t, now) && |t| > 0
    ensures Oldest(t, w)
  {
    assert forall k :: k in t ==> RingOk(t[k], now);
    assert StampsOf(t).Keys == t.Keys;
    SomeOldest(StampsOf(t));
    w :| OldestIn(StampsOf(t), w);
  }

  lemma SomeOldest(m: Stamps)
    requires m != map[] && forall k :: k in m ==> m[k] != []
    ensures exists k :: OldestIn(m, k)
  {
    var k :| k in m;
    var rest := m - {k};
    if rest == map[] {
      assert forall k' :: k' in m && k' != k ==> k' in rest;
      assert OldestIn(m, k);
    } else {
      assert rest.Keys < m.Keys;
      SubsetSize(rest.Keys, m.Keys);
      SomeOldest(rest);
      var o :| OldestIn(rest, o);
      assert forall k' :: k' in m && k' != k ==> k' in rest && rest[k'] == m[k'];
      assert OldestIn(m, if Last(m[k]) <= Last(m[o]) then k else o);
    }
  }

  lemma LiveKey(m: Stamps, k: string, cutoff: int)
    ensures k in Live(m, cutoff) <==> k in m && Trim(m[k], cutoff) != []
    ensures k in Live(m, cutoff) ==> Live(m, cutoff)[k] == Trim(m[k], cutoff)
  {
    hide Trim;
  }

  // ----- the cap -----

  /** No legal run, ties or not, ever holds more keys than the cap. */
  lemma {:induction false} TableRespectsCap(cfg: Config, es: seq<Event>)
    requires LegalRun(cfg, es)
    ensures |After(cfg, es)| <= Cap(cfg)
  {
    hide Step, Legal;
    if es != [] {
      TableRespectsCap(cfg, Front(es));
      StepRespectsCap(cfg, After(cfg, Front(es)), Last(es));
    }
  }

  lemma StepRespectsCap(cfg: Config, t: Table, e: Event)
    requires |t| <= Cap(cfg) && Legal(cfg, t, e)
    ensures |Step(cfg, t, e)| <= Cap(cfg)
  {
    hide Step, Oldest;
    StepKeys(cfg, t, e);
    var keys' := Step(cfg, t, e).Keys;
    SubsetSize(keys', t.Keys + if e.Tick? then {e.key} else {});
    if e.Tick? && e.victim.Some? {
      VictimPresent(cfg, t, e);
      assert |t.Keys - {e.victim.value}| == |t| - 1;
    }
  }

  lemma VictimPresent(cfg: Config, t: Table, e: Event)
    requires e.Tick? && e.victim.Some? && Legal(cfg, t, e)
    ensures e.victim.value in t
  {
  }

  lemma StepKeys(cfg: Config, t: Table, e: Event)
    ensures e.Sweep? ==> Step(cfg, t, e).Keys <= t.Keys
    ensures e.Tick? ==> Step(cfg, t, e).Keys == t.Keys - (if e.victim.Some? then {e.victim.value} else {}) + {e.key}
  {
    hide Trim;
  }

  lemma LiveIsSmaller(m: Stamps, cutoff: int)
    ensures |Live(m, cutoff)| <= |m|
  {
    SubmapSize(Live(m, cutoff), m);
  }
}
