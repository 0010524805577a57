/** The bounded sliding-window counter behind `| count() by ... OP N`
    (agent/internal/ruleengine/state.go): per-key timestamp rings, trimmed on
    every tick, swept by a janitor, capped with least-recently-touched eviction. */
module RuleState {
  import opened Wrappers
  import opened RuleAst

  datatype Ring = Ring(timestamps: seq<int>, lastTouch: int)

  type Table = map<string, Ring>

  datatype Config = Config(window: nat, maxKeys: nat)

  function AggCompare(op: AggOp, count: int, threshold: int): bool {
    match op
    case GT => count > threshold
    case GTE => count >= threshold
    case LT => count < threshold
    case LTE => count <= threshold
    case EQ => count == threshold
    case NE => count != threshold
  }

  /** The first index from `i` on that is not older than `cutoff`. */
  function FirstLive(ts: seq<int>, cutoff: int, i: nat): (r: nat)
    requires i <= |ts|
    ensures i <= r <= |ts|
    decreases |ts| - i
  {
    if i == |ts| || ts[i] >= cutoff then i else FirstLive(ts, cutoff, i + 1)
  }

  /** `ts` without its leading entries older than `cutoff`. */
  function Trim(ts: seq<int>, cutoff: int): seq<int> { ts[FirstLive(ts, cutoff, 0)..] }

  ghost predicate Oldest(t: Table, k: string) {
    k in t && forall k' :: k' in t ==> t[k].lastTouch <= t[k'].lastTouch
  }

  predicate MustEvict(cfg: Config, t: Table, key: string) { key !in t && |t| >= cfg.maxKeys && |t| > 0 }

  function Evicted(t: Table, victim: Option<string>): Table {
    if victim.Some? then t - {victim.value} else t
  }

  function Ticked(cfg: Config, t: Table, now: int, key: string, victim: Option<string>): (t': Table)
    ensures key in t'
  {
    var t1 := Evicted(t, victim);
    var kept := if key in t1 then Trim(t1[key].timestamps, now - cfg.window) else [];
    t1[key := Ring(kept + [now], now)]
  }

  function Swept(cfg: Config, t: Table, now: int): Table {
    map k | k in t && Trim(t[k].timestamps, now - cfg.window) != []
      :: t[k].(timestamps := Trim(t[k].timestamps, now - cfg.window))
  }

  class RuleState {
    const window: nat
    const maxKeys: nat
    const op: AggOp
    const threshold: int
    var keys: Table
    var evictions: nat

    constructor (windowSecs: nat, cap: nat, aggOp: AggOp, n: int)
      ensures window == windowSecs * 1_000_000_000 && maxKeys == cap && op == aggOp && threshold == n
      ensures keys == map[] && evictions == 0
    {
      window, maxKeys, op, threshold := windowSecs * 1_000_000_000, cap, aggOp, n;
      keys, evictions := map[], 0;
    }

    function Cfg(): Config { Config(window, maxKeys) }

    /** Records a match and compares the key's count. `victim` is the key an
        eviction removed, if the table was full. */
    method Tick(now: int, key: string) returns (fire: bool, ghost victim: Option<string>)
      modifies this
      ensures if MustEvict(Cfg(), old(keys), key) then victim.Some? && Oldest(old(keys), victim.value) else victim.None?
      ensures keys == Ticked(Cfg(), old(keys), now, key, victim)
      ensures op == GT ==> (fire <==> |keys[key].timestamps| > threshold)
      ensures op == GTE ==> (fire <==> |keys[key].timestamps| >= threshold)
      ensures op == LT ==> (fire <==> |keys[key].timestamps| < threshold)
      ensures op == LTE ==> (fire <==> |keys[key].timestamps| <= threshold)
      ensures op == EQ ==> (fire <==> |keys[key].timestamps| == threshold)
      ensures op == NE ==> (fire <==> |keys[key].timestamps| != threshold)
      ensures evictions == old(evictions) + if victim.Some? then 1 else 0
    {
      hide Trim;
      victim := None;
      var cutoff := now - window;
      if key !in keys {
        if |keys| >= maxKeys {
          victim := EvictLRULocked();
        }
        keys := keys[key := Ring([], 0)];
      }
      var r := keys[key];
      var i := ExpiredHead(r.timestamps, cutoff);
      if i > 0 {
        r := r.(timestamps := r.timestamps[i..]);
      }
      assert r.timestamps == if key in old(keys) then Trim(old(keys)[key].timestamps, cutoff) else [];
      r := Ring(r.timestamps + [now], now);
      keys := keys[key := r];
      var count := |r.timestamps|;
      fire := AggCompare(op, count, threshold);
    }

    /** The trimming loop shared by tick and sweep. */
    static method ExpiredHead(ts: seq<int>, cutoff: int) returns (i: nat)
      ensures i <= |ts| && Trim(ts, cutoff) == ts[i..]
    {
      i := 0;
      while i < |ts|
        invariant 0 <= i <= |ts| && FirstLive(ts, cutoff, 0) == FirstLive(ts, cutoff, i)
      {
        if ts[i] >= cutoff {
          return;
        }
        i := i + 1;
      }
    }

    method Sweep(now: int)
      modifies `keys
      ensures keys == Swept(Cfg(), old(keys), now)
    {
      hide Trim;
      var cutoff := now - window;
      var todo := keys.Keys;
      while todo != {}
        invariant todo <= old(keys).Keys
        invariant forall k :: k in todo ==> k in keys && keys[k] == old(keys)[k]
        invariant forall k :: k in old(keys) && k !in todo ==>
                    (k in keys <==> Trim(old(keys)[k].timestamps, cutoff) != [])
        invariant forall k :: k in keys ==> k in old(keys)
        invariant forall k :: k in keys && k !in todo ==>
                    keys[k] == old(keys)[k].(timestamps := Trim(old(keys)[k].timestamps, cutoff))
        decreases |todo|
      {
        var k :| k in todo;
        todo := todo - {k};
        var r := keys[k];
        var i := ExpiredHead(r.timestamps, cutoff);
        if i > 0 {
          r := r.(timestamps := r.timestamps[i..]);
        }
        assert r.timestamps == Trim(old(keys)[k].timestamps, cutoff);
        if |r.timestamps| == 0 {
          keys := keys - {k};
        } else {
          keys := keys[k := r];
        }
      }
    }

    /** Scans the table in no particular order for a least recently touched key. */
    method EvictLRULocked() returns (ghost victim: Option<string>)
      modifies this
      ensures victim.None? <==> old(keys) == map[]
      ensures victim.Some? ==> Oldest(old(keys), victim.value)
      ensures keys == Evicted(old(keys), victim)
      ensures evictions == old(evictions) + if victim.Some? then 1 else 0
    {
      victim := None;
      var oldestKey, oldestT, init := "", 0, false;
      var todo := keys.Keys;
      while todo != {}
        invariant todo <= keys.Keys && keys == old(keys) && evictions == old(evictions)
        invariant init <==> todo != keys.Keys
        invariant init ==> oldestKey in keys && oldestT == keys[oldestKey].lastTouch
        invariant init ==> forall k :: k in keys && k !in todo ==> oldestT <= keys[k].lastTouch
        decreases |todo|
      {
        var k :| k in todo;
        if !init || keys[k].lastTouch < oldestT {
          oldestKey, oldestT, init := k, keys[k].lastTouch, true;
        }
        todo := todo - {k};
      }
      if !init {
        return;
      }
      victim := Some(oldestKey);
      keys := keys - {oldestKey};
      evictions := evictions + 1;
    }
  }
}
