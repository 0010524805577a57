/** Whole runs of the sliding-window counter: what a tick's count is worth
    against an unbounded reference. */
module RuleRuns {
  import opened Wrappers
  import opened Collections
  import opened RuleAst
  import opened RuleState

  /** `victim` records which key the eviction picked: with ties in last-touch
      times the map's iteration order decides. */
  datatype Event = Tick(now: int, key: string, victim: Option<string>) | Sweep(now: int)

  ghost predicate Legal(cfg: Config, t: Table, e: Event) {
    e.Tick? ==>
      if MustEvict(cfg, t, e.key) then e.victim.Some? && Oldest(t, e.victim.value) else e.victim.None?
  }

  function Step(cfg: Config, t: Table, e: Event): Table {
    match e
    case Tick(now, key, victim) => Ticked(cfg, t, now, key, victim)
    case Sweep(now) => Swept(cfg, t, now)
  }

  /** The table a run leaves behind, starting from an empty one. */
  function After(cfg: Config, es: seq<Event>): Table {
    if es == [] then map[] else Step(cfg, After(cfg, Front(es)), Last(es))
  }

  ghost predicate LegalRun(cfg: Config, es: seq<Event>) {
    es != [] ==> LegalRun(cfg, Front(es)) && Legal(cfg, After(cfg, Front(es)), Last(es))
  }

  predicate ClockForward(es: seq<Event>) {
    es != [] ==> ClockForward(Front(es)) && (Front(es) != [] ==> Last(Front(es)).now <= Last(es).now)
  }

  /** The times at which `key` was ticked, oldest first. */
  function Times(es: seq<Event>, key: string): seq<int> {
    if es == [] then []
    else if Last(es).Tick? && Last(es).key == key then Times(Front(es), key) + [Last(es).now]
    else Times(Front(es), key)
  }

  /** The unbounded reference: ticks on `key` within [lo, hi]. */
  function Reference(es: seq<Event>, key: string, lo: int, hi: int): nat {
    if es == [] then 0
    else
      Reference(Front(es), key, lo, hi) +
      (if Last(es).Tick? && Last(es).key == key && lo <= Last(es).now <= hi then 1 else 0)
  }

  /** The latest timestamp of `key` that was still live when an eviction dropped it. */
  function Lost(cfg: Config, es: seq<Event>, key: string): Option<int> {
    if es == [] then None
    else
      var e, t := Last(es), After(cfg, Front(es));
      if e.Tick? && e.victim == Some(key) && key in t && t[key].timestamps != []
         && Last(t[key].timestamps) >= e.now - cfg.window
      then Some(Last(t[key].timestamps))
      else Lost(cfg, Front(es), key)
  }

  /** The number the last tick of a run compares with its threshold. */
  function Counted(cfg: Config, es: seq<Event>): nat
    requires es != [] && Last(es).Tick?
  {
    |After(cfg, es)[Last(es).key].timestamps|
  }

  predicate Ascending(ts: seq<int>) { forall i, j :: 0 <= i < j < |ts| ==> ts[i] <= ts[j] }

  function Held(t: Table, key: string): seq<int> { if key in t then t[key].timestamps else [] }

  // ----- trimming -----

  /** The first live index separates expired entries from a live one. */
  lemma {:induction false} FirstLiveIs(ts: seq<int>, cutoff: int, i: nat)
    requires i <= |ts|
    ensures var r := FirstLive(ts, cutoff, i);
            (forall j :: i <= j < r ==> ts[j] < cutoff) && (r < |ts| ==> ts[r] >= cutoff)
    decreases |ts| - i
  {
    if i < |ts| && ts[i] < cutoff {
      FirstLiveIs(ts, cutoff, i + 1);
    }
  }

  /** Trimming drops exactly the leading entries below the cutoff. */
  lemma TrimAt(ts: seq<int>, cutoff: int) returns (i: nat)
    ensures i <= |ts| && Trim(ts, cutoff) == ts[i..]
    ensures forall j :: 0 <= j < i ==> ts[j] < cutoff
    ensures i < |ts| ==> ts[i] >= cutoff
  {
    i := FirstLive(ts, cutoff, 0);
    FirstLiveIs(ts, cutoff, 0);
  }

  lemma TrimIs(ts: seq<int>, cutoff: int, i: nat)
    requires i <= |ts| && (forall j :: 0 <= j < i ==> ts[j] < cutoff) && (i < |ts| ==> ts[i] >= cutoff)
    ensures Trim(ts, cutoff) == ts[i..]
  {
    var k := TrimAt(ts, cutoff);
  }

  lemma TrimTwice(ts: seq<int>, c: int, d: int)
    requires c <= d
    ensures Trim(Trim(ts, c), d) == Trim(ts, d)
  {
    var i := TrimAt(ts, c);
    var j := TrimAt(ts[i..], d);
    TrimIs(ts, d, i + j);
  }

  /** Ticks in the window are what trimming the history leaves. */
  lemma {:induction false} ReferenceIsTrimmedHistory(es: seq<Event>, key: string, lo: int, hi: int)
    requires Ascending(Times(es, key)) && forall i :: 0 <= i < |Times(es, key)| ==> Times(es, key)[i] <= hi
    ensures Reference(es, key, lo, hi) == |Trim(Times(es, key), lo)|
  {
    if es != [] {
      var ts, ts' := Times(Front(es), key), Times(es, key);
      assert forall i :: 0 <= i < |ts| ==> ts[i] == ts'[i];
      ReferenceIsTrimmedHistory(Front(es), key, lo, hi);
      if ts' != ts {
        assert ts'[|ts|] == Last(es).now;
        TrimPush(ts, Last(es).now, lo);
      }
    }
  }

  lemma TrimPush(ts: seq<int>, x: int, lo: int)
    requires Ascending(ts + [x])
    ensures |Trim(ts + [x], lo)| == |Trim(ts, lo)| + if x >= lo then 1 else 0
  {
    hide Trim;
    var i := TrimAt(ts, lo);
    var ts' := ts + [x];
    assert forall j :: 0 <= j < |ts| ==> ts'[j] == ts[j];
    assert forall j :: 0 <= j < |ts| ==> ts'[j] <= ts'[|ts|];
    TrimIs(ts', lo, if x >= lo then i else i + 1);
  }

  // ----- what a ring knows about its key's history -----

  /** `held` is the recent end of the history `ts`; what is missing is older
      than the cutoff or no newer than the loss, and the loss is missing. */
  ghost predicate Explained(ts: seq<int>, held: seq<int>, lost: Option<int>, cutoff: int) {
    && Ascending(ts)
    && |held| <= |ts| && held == ts[|ts| - |held|..]
    && (forall i :: 0 <= i < |ts| - |held| ==> ts[i] < cutoff || (lost.Some? && ts[i] <= lost.value))
    && (lost.Some? ==> exists i :: 0 <= i < |ts| - |held| && ts[i] == lost.value)
  }

  lemma ExplainedTrim(ts: seq<int>, held: seq<int>, lost: Option<int>, cutoff: int, cutoff': int)
    requires Explained(ts, held, lost, cutoff) && (cutoff <= cutoff' || ts == [])
    ensures Explained(ts, Trim(held, cutoff'), lost, cutoff')
  {
    var d := TrimAt(held, cutoff');
    var gone := |ts| - |held|;
    assert held[d..] == ts[gone + d..];
    assert forall i :: gone <= i < gone + d ==> ts[i] == held[i - gone];
    if lost.Some? {
      var i :| 0 <= i < gone && ts[i] == lost.value;
      assert 0 <= i < |ts| - |held[d..]|;
    }
  }

  lemma ExplainedLater(ts: seq<int>, held: seq<int>, lost: Option<int>, cutoff: int, cutoff': int)
    requires Explained(ts, held, lost, cutoff) && (cutoff <= cutoff' || ts == [])
    ensures Explained(ts, held, lost, cutoff')
  {
  }

  lemma ExplainedPush(ts: seq<int>, held: seq<int>, lost: Option<int>, cutoff: int, x: int)
    requires Explained(ts, held, lost, cutoff) && (ts == [] || Last(ts) <= x)
    ensures Explained(ts + [x], held + [x], lost, cutoff)
  {
    var ts', gone := ts + [x], |ts| - |held|;
    assert held + [x] == ts'[gone..];
    assert forall i :: 0 <= i < |ts| ==> ts'[i] == ts[i] <= x;
    if lost.Some? {
      var i :| 0 <= i < gone && ts[i] == lost.value;
      assert ts'[i] == lost.value;
    }
  }

  /** Dropping the whole ring loses its last timestamp, if that was still live. */
  lemma ExplainedEvict(ts: seq<int>, held: seq<int>, lost: Option<int>, cutoff: int, cutoff': int)
    requires Explained(ts, held, lost, cutoff) && cutoff <= cutoff' && held != []
    ensures Explained(ts, [], if Last(held) >= cutoff' then Some(Last(held)) else lost, cutoff')
  {
    assert Last(held) == ts[|ts| - 1];
    assert forall i :: 0 <= i < |ts| ==> ts[i] <= ts[|ts| - 1];
    if Last(held) < cutoff' && lost.Some? {
      var i :| 0 <= i < |ts| - |held| && ts[i] == lost.value;
      assert 0 <= i < |ts|;
    }
  }

  /** A live ring counts the window exactly, unless the loss lies in the window. */
  lemma LiveRingCount(ts: seq<int>, held: seq<int>, lost: Option<int>, lo: int)
    requires Explained(ts, held, lost, lo) && held != [] && held[0] >= lo
    ensures |held| <= |Trim(ts, lo)|
    ensures |held| == |Trim(ts, lo)| <==> !(lost.Some? && lost.value >= lo)
  {
    var i := TrimAt(ts, lo);
    var gone := |ts| - |held|;
    assert held[0] == ts[gone];
    if lost.Some? && lost.value >= lo {
      var j :| 0 <= j < gone && ts[j] == lost.value;
      assert i <= j;
    }
  }

  // ----- every run keeps every ring explained -----

  function Cutoff(cfg: Config, es: seq<Event>): int { if es == [] then 0 else Last(es).now - cfg.window }

  ghost predicate Faithful(cfg: Config, es: seq<Event>, key: string) {
    var t, ts := After(cfg, es), Times(es, key);
    && Explained(ts, Held(t, key), Lost(cfg, es, key), Cutoff(cfg, es))
    && (ts != [] ==> es != [] && Last(ts) <= Last(es).now)
    && (key in t ==> Held(t, key) != [] && t[key].lastTouch == Last(Held(t, key)))
  }

  lemma ForwardCutoff(cfg: Config, es: seq<Event>, key: string)
    requires es != [] && ClockForward(es) && Faithful(cfg, Front(es), key)
    ensures Cutoff(cfg, Front(es)) <= Cutoff(cfg, es) || Times(Front(es), key) == []
    ensures var ts := Times(Front(es), key); ts != [] ==> Last(ts) <= Last(es).now
  {
  }

  lemma HeldAfterSweep(cfg: Config, t: Table, now: int, key: string)
    requires key in t ==> t[key].timestamps != [] && t[key].lastTouch == Last(t[key].timestamps)
    ensures var t', kept := Swept(cfg, t, now), Trim(Held(t, key), now - cfg.window);
            && Held(t', key) == kept
            && (key in t' ==> kept != [] && t'[key].lastTouch == Last(kept))
  {
    var i := TrimAt(Held(t, key), now - cfg.window);
  }

  lemma HeldAfterTick(cfg: Config, t: Table, now: int, key: string, victim: Option<string>)
    requires victim != Some(key)
    ensures var t' := Ticked(cfg, t, now, key, victim);
            Held(t', key) == Trim(Held(t, key), now - cfg.window) + [now] && t'[key].lastTouch == now
  {
  }

  lemma SweptFaithful(cfg: Config, es: seq<Event>, key: string)
    requires es != [] && ClockForward(es) && Faithful(cfg, Front(es), key) && Last(es).Sweep?
    ensures Faithful(cfg, es, key)
  {
    hide Trim, Explained, ClockForward, Swept;
    ForwardCutoff(cfg, es, key);
    var t := After(cfg, Front(es));
    HeldAfterSweep(cfg, t, Last(es).now, key);
    ExplainedTrim(Times(Front(es), key), Held(t, key), Lost(cfg, Front(es), key),
                  Cutoff(cfg, Front(es)), Cutoff(cfg, es));
  }

  lemma TickedFaithful(cfg: Config, es: seq<Event>, key: string)
    requires es != [] && ClockForward(es) && Faithful(cfg, Front(es), key)
    requires Last(es).Tick? && Last(es).key == key && Last(es).victim != Some(key)
    ensures Faithful(cfg, es, key)
  {
    hide Trim, Explained, ClockForward;
    ForwardCutoff(cfg, es, key);
    var t, ts, lost := After(cfg, Front(es)), Times(Front(es), key), Lost(cfg, Front(es), key);
    HeldAfterTick(cfg, t, Last(es).now, key, Last(es).victim);
    ExplainedTrim(ts, Held(t, key), lost, Cutoff(cfg, Front(es)), Cutoff(cfg, es));
    ExplainedPush(ts, Trim(Held(t, key), Cutoff(cfg, es)), lost, Cutoff(cfg, es), Last(es).now);
  }

  lemma BystanderFaithful(cfg: Config, es: seq<Event>, key: string)
    requires es != [] && ClockForward(es) && Faithful(cfg, Front(es), key)
    requires Last(es).Tick? && Last(es).key != key && Last(es).victim != Some(key)
    ensures Faithful(cfg, es, key)
  {
    hide Trim, Explained, ClockForward;
    ForwardCutoff(cfg, es, key);
    var t := After(cfg, Front(es));
    ExplainedLater(Times(Front(es), key), Held(t, key), Lost(cfg, Front(es), key),
                   Cutoff(cfg, Front(es)), Cutoff(cfg, es));
  }

  lemma VictimFaithful(cfg: Config, es: seq<Event>, key: string)
    requires es != [] && ClockForward(es) && Faithful(cfg, Front(es), key)
    requires Last(es).Tick? && Last(es).key != key && Last(es).victim == Some(key)
    requires key in After(cfg, Front(es))
    ensures Faithful(cfg, es, key)
  {
    hide Trim, ClockForward, Ascending;
    ForwardCutoff(cfg, es, key);
    var t := After(cfg, Front(es));
    ExplainedEvict(Times(Front(es), key), Held(t, key), Lost(cfg, Front(es), key),
                   Cutoff(cfg, Front(es)), Cutoff(cfg, es));
  }

  lemma EmptyFaithful(cfg: Config, key: string)
    ensures Faithful(cfg, [], key)
  {
  }

  lemma RunPrefix(cfg: Config, es: seq<Event>)
    requires es != [] && LegalRun(cfg, es) && ClockForward(es)
    ensures LegalRun(cfg, Front(es)) && ClockForward(Front(es))
    ensures var e := Last(es);
            e.Tick? && e.victim.Some? ==> e.victim.value != e.key && e.victim.value in After(cfg, Front(es))
  {
    hide After;
  }

  lemma {:induction false} RunFaithful(cfg: Config, es: seq<Event>, key: string)
    requires LegalRun(cfg, es) && ClockForward(es)
    ensures Faithful(cfg, es, key)
  {
    hide Faithful, After, ClockForward, LegalRun;
    if es == [] {
      EmptyFaithful(cfg, key);
    } else {
      RunPrefix(cfg, es);
      RunFaithful(cfg, Front(es), key);
      if Last(es).Sweep? {
        SweptFaithful(cfg, es, key);
      } else if Last(es).key == key {
        TickedFaithful(cfg, es, key);
      } else if Last(es).victim == Some(key) {
        VictimFaithful(cfg, es, key);
      } else {
        BystanderFaithful(cfg, es, key);
      }
    }
  }

  // ----- exact or under, never over -----

  /** A live timestamp of the last tick's own window was dropped by an eviction. */
  predicate LossInWindow(cfg: Config, es: seq<Event>)
    requires es != [] && Last(es).Tick?
  {
    Lost(cfg, es, Last(es).key).Some? && Lost(cfg, es, Last(es).key).value >= Last(es).now - cfg.window
  }

  /** With a clock that never runs backwards the count never exceeds the
      reference, and equals it if and only if no eviction dropped a timestamp of
      this key that still lies in the window. */
  lemma ExactOrUnder(cfg: Config, es: seq<Event>)
    requires es != [] && Last(es).Tick? && LegalRun(cfg, es) && ClockForward(es)
    ensures Counted(cfg, es) <= Reference(es, Last(es).key, Last(es).now - cfg.window, Last(es).now)
    ensures Counted(cfg, es) == Reference(es, Last(es).key, Last(es).now - cfg.window, Last(es).now)
            <==> !LossInWindow(cfg, es)
  {
    hide Trim, LegalRun, ClockForward, After, Times, Lost, Reference, Explained;
    var key, lo := Last(es).key, Last(es).now - cfg.window;
    RunFaithful(cfg, es, key);
    var ts := Times(es, key);
    TicksKnown(cfg, es, key);
    ReferenceIsTrimmedHistory(es, key, lo, Last(es).now);
    HeldIsLive(cfg, es);
    LiveRingCount(ts, Held(After(cfg, es), key), Lost(cfg, es, key), lo);
  }

  lemma TicksKnown(cfg: Config, es: seq<Event>, key: string)
    requires Faithful(cfg, es, key) && es != []
    ensures Ascending(Times(es, key)) && forall i :: 0 <= i < |Times(es, key)| ==> Times(es, key)[i] <= Last(es).now
  {
    hide Times, Lost, After, Ascending;
    if Times(es, key) != [] {
      AscendingTop(Times(es, key), Last(es).now);
    }
  }

  lemma AscendingTop(ts: seq<int>, top: int)
    requires ts != [] && Ascending(ts) && Last(ts) <= top
    ensures forall i :: 0 <= i < |ts| ==> ts[i] <= top
  {
    forall i | 0 <= i < |ts|
      ensures ts[i] <= top
    {
      assert i < |ts| - 1 ==> ts[i] <= ts[|ts| - 1];
    }
  }

  /** Right after a tick the ring holds only timestamps inside the window. */
  lemma HeldIsLive(cfg: Config, es: seq<Event>)
    requires es != [] && Last(es).Tick?
    ensures var held := Held(After(cfg, es), Last(es).key);
            held != [] && held[0] >= Last(es).now - cfg.window
  {
    hide Trim;
    var e := Last(es);
    var t1 := Evicted(After(cfg, Front(es)), e.victim);
    if e.key in t1 {
      var i := TrimAt(t1[e.key].timestamps, e.now - cfg.window);
    }
  }

  /** The number of ticks on the last tick's key in the window that ends with it. */
  function InWindow(cfg: Config, es: seq<Event>): nat
    requires es != [] && Last(es).Tick?
  {
    Reference(es, Last(es).key, Last(es).now - cfg.window, Last(es).now)
  }

  function Fires(cfg: Config, es: seq<Event>, op: AggOp, threshold: int): bool
    requires es != [] && Last(es).Tick?
  {
    AggCompare(op, Counted(cfg, es), threshold)
  }

  /** Unless an eviction took a timestamp of the window, a rule fires exactly when
      the number of ticks in the window compares as the rule says. */
  lemma FiresExactly(cfg: Config, es: seq<Event>, threshold: int)
    requires es != [] && Last(es).Tick? && LegalRun(cfg, es) && ClockForward(es) && !LossInWindow(cfg, es)
    ensures Fires(cfg, es, GT, threshold) <==> InWindow(cfg, es) > threshold
    ensures Fires(cfg, es, GTE, threshold) <==> InWindow(cfg, es) >= threshold
    ensures Fires(cfg, es, LT, threshold) <==> InWindow(cfg, es) < threshold
    ensures Fires(cfg, es, LTE, threshold) <==> InWindow(cfg, es) <= threshold
    ensures Fires(cfg, es, EQ, threshold) <==> InWindow(cfg, es) == threshold
    ensures Fires(cfg, es, NE, threshold) <==> InWindow(cfg, es) != threshold
  {
    hide LegalRun, ClockForward, LossInWindow, Reference, Counted;
    ExactOrUnder(cfg, es);
  }

  /** With or without such a loss, a `>` or `>=` rule fires only when that number
      is above the threshold, and a `<` or `<=` rule misses no case below it. */
  lemma FiresOnlyWithReference(cfg: Config, es: seq<Event>, threshold: int)
    requires es != [] && Last(es).Tick? && LegalRun(cfg, es) && ClockForward(es)
    ensures Fires(cfg, es, GT, threshold) ==> InWindow(cfg, es) > threshold
    ensures Fires(cfg, es, GTE, threshold) ==> InWindow(cfg, es) >= threshold
    ensures InWindow(cfg, es) < threshold ==> Fires(cfg, es, LT, threshold)
    ensures InWindow(cfg, es) <= threshold ==> Fires(cfg, es, LTE, threshold)
  {
    hide LegalRun, ClockForward, LossInWindow, Reference, Counted;
    ExactOrUnder(cfg, es);
  }
}
