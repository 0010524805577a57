/** The single-flight hash pool as a step protocol (Submit, worker, complete and
    failPending in agent/internal/enricher/hasher.go), in every interleaving
    before Close. A step is one critical section or one channel operation. */
module HashPool {
  import opened Collections

  type Key = nat
  type Chan = nat
  type Thread = nat

  datatype Job = Job(path: string, key: Key)

  /** Where a thread stands in Submit, worker, complete or failPending. */
  datatype Pc =
    | Idle
    | Registered(job: Job)                // pending entry made, job not yet offered
    | Rejected(key: Key)                  // queue was full, about to fail the entry
    | Running(job: Job)                   // worker has the job
    | Hashed(key: Key, hash: string)      // worker has the hash
    | Delivering(key: Key, subs: seq<Chan>, value: string, sent: bool)

  /** A subscriber channel of capacity one. */
  datatype Slot = Fresh | Sent(value: string) | Closed(value: string)

  /** Who still has to serve a channel; kept to state the protocol's promise. */
  datatype Owner = InPending | WithThread(t: Thread) | Served

  datatype ChanInfo = ChanInfo(key: Key, slot: Slot, owner: Owner)

  /** `computed` collects what workers found; `faulted` is raised by a send or
      close that Go would block or panic on, or by a missing pending entry. */
  datatype State = State(cache: map<Key, string>, pending: map<Key, seq<Chan>>, queue: seq<Job>,
                         pcs: map<Thread, Pc>, chans: seq<ChanInfo>, computed: set<(Key, string)>, faulted: bool)

  datatype Action =
    | SubmitHit(t: Thread, key: Key)
    | SubmitJoin(t: Thread, key: Key)
    | SubmitRegister(t: Thread, job: Job)
    | Enqueue(t: Thread)
    | Saturated(t: Thread)
    | TakeJob(t: Thread)
    | Hash(t: Thread, hash: string)
    | Complete(t: Thread)
    | FailPending(t: Thread)
    | Send(t: Thread)
    | CloseChan(t: Thread)
    | Done(t: Thread)

  /** The worker threads, at least one; any other thread may submit. */
  datatype Pool = Pool(workers: set<Thread>)

  function Capacity(pool: Pool): nat { 4 * |pool.workers| }

  function PcOf(s: State, t: Thread): Pc { if t in s.pcs then s.pcs[t] else Idle }

  const INITIAL := State(map[], map[], [], map[], [], {}, false)

  predicate Enabled(pool: Pool, s: State, a: Action) {
    var pc := PcOf(s, a.t);
    match a
    case SubmitHit(t, key) => t !in pool.workers && pc.Idle? && key in s.cache
    case SubmitJoin(t, key) => t !in pool.workers && pc.Idle? && key !in s.cache && key in s.pending
    case SubmitRegister(t, job) =>
      t !in pool.workers && pc.Idle? && job.key !in s.cache && job.key !in s.pending
    case Enqueue(_) => pc.Registered? && |s.queue| < Capacity(pool)
    case Saturated(_) => pc.Registered? && |s.queue| >= Capacity(pool)
    case TakeJob(t) => t in pool.workers && pc.Idle? && s.queue != []
    case Hash(_, _) => pc.Running?
    case Complete(_) => pc.Hashed?
    case FailPending(_) => pc.Rejected?
    case Send(_) => pc.Delivering? && pc.subs != [] && !pc.sent
    case CloseChan(_) => pc.Delivering? && pc.subs != [] && pc.sent
    case Done(_) => pc.Delivering? && pc.subs == []
  }

  function Goto(s: State, t: Thread, pc: Pc): State { s.(pcs := s.pcs[t := pc]) }

  /** Hands channels over to `t`, which takes them out of the pending table. */
  function Claim(chans: seq<ChanInfo>, subs: seq<Chan>, t: Thread): (r: seq<ChanInfo>)
    ensures |r| == |chans|
    ensures forall c :: 0 <= c < |chans| ==> r[c] == if c in subs then chans[c].(owner := WithThread(t)) else chans[c]
  {
    seq(|chans|, c requires 0 <= c < |chans| => if c in subs then chans[c].(owner := WithThread(t)) else chans[c])
  }

  /** The critical section of complete and failPending. */
  function TakeSubscribers(s: State, t: Thread, key: Key, value: string): State {
    var subs := if key in s.pending then s.pending[key] else [];
    Goto(s, t, Delivering(key, subs, value, false)).(
      pending := s.pending - {key}, chans := Claim(s.chans, subs, t), faulted := s.faulted || key !in s.pending)
  }

  function Put(s: State, c: Chan, slot: Slot, owner: Owner): State
    requires c < |s.chans|
  {
    s.(chans := s.chans[c := ChanInfo(s.chans[c].key, slot, owner)])
  }

  function Step(pool: Pool, s: State, a: Action): State
    requires Enabled(pool, s, a)
  {
    var pc := PcOf(s, a.t);
    match a
    case SubmitHit(_, _) => s
    case SubmitJoin(_, key) =>
      s.(pending := s.pending[key := s.pending[key] + [|s.chans|]],
         chans := s.chans + [ChanInfo(key, Fresh, InPending)])
    case SubmitRegister(t, job) =>
      Goto(s, t, Registered(job)).(
        pending := s.pending[job.key := [|s.chans|]],
        chans := s.chans + [ChanInfo(job.key, Fresh, InPending)])
    case Enqueue(t) => Goto(s, t, Idle).(queue := s.queue + [pc.job])
    case Saturated(t) => Goto(s, t, Rejected(pc.job.key))
    case TakeJob(t) => Goto(s, t, Running(s.queue[0])).(queue := s.queue[1..])
    case Hash(t, hash) => Goto(s, t, Hashed(pc.job.key, hash)).(computed := s.computed + {(pc.job.key, hash)})
    case Complete(t) =>
      TakeSubscribers(s, t, pc.key, pc.hash).(
        cache := if pc.hash != "" then s.cache[pc.key := pc.hash] else s.cache)
    case FailPending(t) => TakeSubscribers(s, t, pc.key, "")
    case Send(t) =>
      var c := pc.subs[0];
      if c < |s.chans| && s.chans[c].slot == Fresh
      then Goto(Put(s, c, Sent(pc.value), WithThread(t)), t, pc.(sent := true))
      else s.(faulted := true)
    case CloseChan(t) =>
      var c := pc.subs[0];
      if c < |s.chans| && s.chans[c].slot.Sent?
      then Goto(Put(s, c, Closed(s.chans[c].slot.value), Served), t, pc.(subs := pc.subs[1..], sent := false))
      else s.(faulted := true)
    case Done(t) => Goto(s, t, Idle)
  }

  // ----- single flight: one responsible party per pending key -----

  /** A thread, or a place in the job queue. */
  datatype Party = AThread(t: Thread) | AJob(i: nat)

  predicate Answers(pc: Pc, key: Key) {
    match pc
    case Registered(job) => job.key == key
    case Rejected(k) => k == key
    case Running(job) => job.key == key
    case Hashed(k, _) => k == key
    case _ => false
  }

  predicate Responsible(s: State, p: Party, key: Key) {
    match p
    case AThread(t) => Answers(PcOf(s, t), key)
    case AJob(i) => i < |s.queue| && s.queue[i].key == key
  }

  ghost predicate SingleFlight(s: State) {
    && (forall p, k :: Responsible(s, p, k) ==> k in s.pending)
    && (forall p, q, k :: Responsible(s, p, k) && Responsible(s, q, k) ==> p == q)
    && (forall k :: k in s.pending ==> exists p :: Responsible(s, p, k))
  }

  // ----- channels: each unserved one has exactly one holder -----

  /** A pending entry's channels are fresh, its own, and listed once. */
  predicate EntryOk(s: State, key: Key, subs: seq<Chan>) {
    && subs != [] && Distinct(subs)
    && forall i :: 0 <= i < |subs| ==> subs[i] < |s.chans| && s.chans[subs[i]] == ChanInfo(key, Fresh, InPending)
  }

  /** A delivering thread holds its channels, all fresh but perhaps the first. */
  predicate DeliveryOk(s: State, t: Thread, pc: Pc) {
    pc.Delivering? ==>
      && Distinct(pc.subs) && (pc.value == "" || (pc.key, pc.value) in s.computed)
      && (pc.subs == [] ==> !pc.sent)
      && forall i :: 0 <= i < |pc.subs| ==>
           && pc.subs[i] < |s.chans|
           && s.chans[pc.subs[i]]
              == ChanInfo(pc.key, if i == 0 && pc.sent then Sent(pc.value) else Fresh, WithThread(t))
  }

  predicate HolderOk(s: State, c: Chan)
    requires c < |s.chans|
  {
    var ch := s.chans[c];
    match ch.owner
    case InPending => ch.key in s.pending && c in s.pending[ch.key]
    case WithThread(t) => PcOf(s, t).Delivering? && c in PcOf(s, t).subs
    case Served => ch.slot.Closed? && (ch.slot.value == "" || (ch.key, ch.slot.value) in s.computed)
  }

  ghost predicate ChannelsOk(s: State) {
    && (forall k :: k in s.pending ==> EntryOk(s, k, s.pending[k]))
    && (forall t :: DeliveryOk(s, t, PcOf(s, t)))
    && (forall c :: 0 <= c < |s.chans| ==> HolderOk(s, c))
  }

  ghost predicate CacheOk(s: State) {
    && (forall k :: k in s.cache ==> s.cache[k] != "" && (k, s.cache[k]) in s.computed && k !in s.pending)
    && (forall t :: PcOf(s, t).Hashed? ==> (PcOf(s, t).key, PcOf(s, t).hash) in s.computed)
  }

  ghost predicate Inv(s: State) { SingleFlight(s) && ChannelsOk(s) && CacheOk(s) && !s.faulted }

  // ----- preservation: responsibility -----

  /** Changing one thread's place without touching keys or queue. */
  lemma FlightSame(s: State, s': State)
    requires SingleFlight(s) && s'.pending.Keys == s.pending.Keys
    requires forall p, k :: Responsible(s', p, k) <==> Responsible(s, p, k)
    ensures SingleFlight(s')
  {
    forall k | k in s'.pending
      ensures exists p :: Responsible(s', p, k)
    {
      assert k in s.pending;
      var p :| Responsible(s, p, k);
      assert Responsible(s', p, k);
    }
  }

  lemma FlightRegister(s: State, s': State, t: Thread, job: Job)
    requires SingleFlight(s) && PcOf(s, t).Idle? && job.key !in s.pending
    requires s'.pcs == s.pcs[t := Registered(job)] && s'.queue == s.queue
    requires s'.pending.Keys == s.pending.Keys + {job.key}
    ensures SingleFlight(s')
  {
    assert forall u :: u != t ==> PcOf(s', u) == PcOf(s, u);
    assert forall p, k :: Responsible(s', p, k) <==> Responsible(s, p, k) || (p == AThread(t) && k == job.key);
    forall k | k in s'.pending
      ensures exists p :: Responsible(s', p, k)
    {
      if k == job.key {
        assert Responsible(s', AThread(t), k);
      } else {
        var p :| Responsible(s, p, k);
        assert Responsible(s', p, k);
      }
    }
  }

  lemma FlightEnqueue(s: State, s': State, t: Thread, job: Job)
    requires SingleFlight(s) && PcOf(s, t) == Registered(job)
    requires s'.pcs == s.pcs[t := Idle] && s'.queue == s.queue + [job] && s'.pending == s.pending
    ensures SingleFlight(s')
  {
    var n := |s.queue|;
    assert forall u :: u != t ==> PcOf(s', u) == PcOf(s, u);
    assert Responsible(s, AThread(t), job.key);
    assert forall p, k :: p != AThread(t) && p != AJob(n) ==> (Responsible(s', p, k) <==> Responsible(s, p, k));
    assert forall k :: Responsible(s', AJob(n), k) <==> Responsible(s, AThread(t), k);
    forall k | k in s'.pending
      ensures exists p :: Responsible(s', p, k)
    {
      var p :| Responsible(s, p, k);
      assert Responsible(s', if p == AThread(t) then AJob(n) else p, k);
    }
  }

  /** A job's place moves down by one when the head of the queue is taken. */
  function Before(p: Party, t: Thread): Party {
    match p
    case AThread(u) => if u == t then AJob(0) else p
    case AJob(i) => AJob(i + 1)
  }

  lemma FlightTake(s: State, s': State, t: Thread)
    requires SingleFlight(s) && PcOf(s, t).Idle? && s.queue != []
    requires s'.pcs == s.pcs[t := Running(s.queue[0])] && s'.queue == s.queue[1..] && s'.pending == s.pending
    ensures SingleFlight(s')
  {
    assert forall u :: u != t ==> PcOf(s', u) == PcOf(s, u);
    assert forall p, k :: Responsible(s', p, k) <==> Responsible(s, Before(p, t), k);
    forall k | k in s'.pending
      ensures exists p :: Responsible(s', p, k)
    {
      var p :| Responsible(s, p, k);
      var p' := if p.AJob? then (if p.i == 0 then AThread(t) else AJob(p.i - 1)) else p;
      assert Before(p', t) == p;
      assert Responsible(s', p', k);
    }
  }

  lemma FlightRelease(s: State, s': State, t: Thread, key: Key)
    requires SingleFlight(s) && Responsible(s, AThread(t), key) && (PcOf(s, t).Rejected? || PcOf(s, t).Hashed?)
    requires t in s'.pcs && s'.pcs == s.pcs[t := s'.pcs[t]] && s'.pcs[t].Delivering? && s'.queue == s.queue
    requires s'.pending.Keys == s.pending.Keys - {key}
    ensures SingleFlight(s')
  {
    assert forall u :: u != t ==> PcOf(s', u) == PcOf(s, u);
    assert forall p, k :: Responsible(s', p, k) <==> Responsible(s, p, k) && p != AThread(t);
    assert forall k :: Responsible(s, AThread(t), k) ==> k == key;
    forall k | k in s'.pending
      ensures exists p :: Responsible(s', p, k)
    {
      var p :| Responsible(s, p, k);
      assert Responsible(s', p, k);
    }
  }

  // ----- preservation: channels -----

  /** Nothing about deliveries, entries or channels changes. */
  ghost predicate SameDeliveries(s: State, s': State) {
    forall t :: PcOf(s, t).Delivering? || PcOf(s', t).Delivering? ==> PcOf(s', t) == PcOf(s, t)
  }

  lemma ChannelsFrame(s: State, s': State)
    requires ChannelsOk(s) && s'.pending == s.pending && s'.chans == s.chans && s.computed <= s'.computed
    requires SameDeliveries(s, s')
    ensures ChannelsOk(s')
  {
    forall k | k in s'.pending
      ensures EntryOk(s', k, s'.pending[k])
    {
      assert EntryOk(s, k, s.pending[k]);
    }
    forall t
      ensures DeliveryOk(s', t, PcOf(s', t))
    {
      assert DeliveryOk(s, t, PcOf(s, t));
    }
    forall c | 0 <= c < |s'.chans|
      ensures HolderOk(s', c)
    {
      assert HolderOk(s, c);
    }
  }

  lemma ChannelsDone(s: State, s': State, t: Thread)
    requires ChannelsOk(s) && PcOf(s, t).Delivering? && PcOf(s, t).subs == []
    requires s' == Goto(s, t, Idle)
    ensures ChannelsOk(s')
  {
    assert forall u :: u != t ==> PcOf(s', u) == PcOf(s, u);
    forall k | k in s'.pending
      ensures EntryOk(s', k, s'.pending[k])
    {
      assert EntryOk(s, k, s.pending[k]);
    }
    forall u
      ensures DeliveryOk(s', u, PcOf(s', u))
    {
      assert DeliveryOk(s, u, PcOf(s, u));
    }
    forall c | 0 <= c < |s'.chans|
      ensures HolderOk(s', c)
    {
      assert HolderOk(s, c);
    }
  }

  /** A new subscriber channel joins the entry of `key`. */
  lemma ChannelsAdd(s: State, s': State, key: Key)
    requires ChannelsOk(s) && s'.computed == s.computed && SameDeliveries(s, s')
    requires s'.chans == s.chans + [ChanInfo(key, Fresh, InPending)]
    requires s'.pending == s.pending[key := (if key in s.pending then s.pending[key] else []) + [|s.chans|]]
    ensures ChannelsOk(s')
  {
    var n := |s.chans|;
    forall k | k in s'.pending
      ensures EntryOk(s', k, s'.pending[k])
    {
      if k in s.pending {
        assert EntryOk(s, k, s.pending[k]);
      }
    }
    forall t
      ensures DeliveryOk(s', t, PcOf(s', t))
    {
      assert DeliveryOk(s, t, PcOf(s, t));
    }
    forall c | 0 <= c < |s'.chans|
      ensures HolderOk(s', c)
    {
      if c < n {
        assert HolderOk(s, c);
      } else {
        var subs := s'.pending[key];
        assert subs[|subs| - 1] == n;
      }
    }
  }

  /** The subscribers of `key` move from the pending table to thread `t`. */
  lemma ChannelsTake(s: State, s': State, t: Thread, key: Key, value: string)
    requires ChannelsOk(s) && key in s.pending && !PcOf(s, t).Delivering?
    requires value == "" || (key, value) in s.computed
    requires s' == TakeSubscribers(s, t, key, value)
    ensures ChannelsOk(s')
  {
    var subs := s.pending[key];
    assert EntryOk(s, key, subs);
    assert forall u :: u != t ==> PcOf(s', u) == PcOf(s, u);
    forall k | k in s'.pending
      ensures EntryOk(s', k, s'.pending[k])
    {
      assert EntryOk(s, k, s.pending[k]);
    }
    forall u
      ensures DeliveryOk(s', u, PcOf(s', u))
    {
      if u != t {
        assert DeliveryOk(s, u, PcOf(s, u));
      }
    }
    forall c | 0 <= c < |s'.chans|
      ensures HolderOk(s', c)
    {
      assert HolderOk(s, c);
    }
  }

  /** What a delivering thread finds at the head of its list. */
  lemma HeadChannel(s: State, t: Thread)
    requires ChannelsOk(s) && PcOf(s, t).Delivering? && PcOf(s, t).subs != []
    ensures var pc := PcOf(s, t);
            && pc.subs[0] < |s.chans|
            && s.chans[pc.subs[0]] == ChanInfo(pc.key, if pc.sent then Sent(pc.value) else Fresh, WithThread(t))
  {
    assert DeliveryOk(s, t, PcOf(s, t));
  }

  lemma ChannelsServe(s: State, s': State, t: Thread, slot: Slot, owner: Owner, pc': Pc)
    requires ChannelsOk(s) && PcOf(s, t).Delivering? && PcOf(s, t).subs != []
    requires PcOf(s, t).subs[0] < |s.chans|
    requires s' == Goto(Put(s, PcOf(s, t).subs[0], slot, owner), t, pc')
    requires var pc := PcOf(s, t);
             || (!pc.sent && slot == Sent(pc.value) && owner == WithThread(t) && pc' == pc.(sent := true))
             || (pc.sent && slot == Closed(pc.value) && owner == Served && pc' == pc.(subs := pc.subs[1..], sent := false))
    ensures ChannelsOk(s')
  {
    var pc := PcOf(s, t);
    var c0 := pc.subs[0];
    HeadChannel(s, t);
    assert DeliveryOk(s, t, pc);
    assert PcOf(s', t) == pc' && forall u :: u != t ==> PcOf(s', u) == PcOf(s, u);
    forall k | k in s'.pending
      ensures EntryOk(s', k, s'.pending[k])
    {
      assert EntryOk(s, k, s.pending[k]);
    }
    forall u
      ensures DeliveryOk(s', u, PcOf(s', u))
    {
      assert DeliveryOk(s, u, PcOf(s, u));
      if u == t {
        assert forall i :: 0 < i < |pc.subs| ==> pc.subs[i] != c0;
      }
    }
    forall c | 0 <= c < |s'.chans|
      ensures HolderOk(s', c)
    {
      assert HolderOk(s, c);
      if c == c0 {
        assert pc'.sent ==> pc'.subs[0] == c0;
      } else if s.chans[c].owner == WithThread(t) {
        var i :| 0 <= i < |pc.subs| && pc.subs[i] == c;
        assert pc'.subs == pc.subs || pc'.subs[i - 1] == c;
      }
    }
  }

  // ----- preservation: whole steps -----

  lemma SubmitPreserves(pool: Pool, s: State, a: Action)
    requires Inv(s) && Enabled(pool, s, a) && (a.SubmitHit? || a.SubmitJoin? || a.SubmitRegister?)
    ensures Inv(Step(pool, s, a))
  {
    hide ChannelsOk, SingleFlight;
    var s' := Step(pool, s, a);
    match a
    case SubmitHit(_, _) =>
    case SubmitJoin(_, key) =>
      FlightSame(s, s');
      ChannelsAdd(s, s', key);
    case SubmitRegister(t, job) =>
      FlightRegister(s, s', t, job);
      assert [] + [|s.chans|] == [|s.chans|];
      ChannelsAdd(s, s', job.key);
  }

  lemma QueuePreserves(pool: Pool, s: State, a: Action)
    requires Inv(s) && Enabled(pool, s, a) && (a.Enqueue? || a.Saturated? || a.TakeJob? || a.Hash?)
    ensures Inv(Step(pool, s, a))
  {
    hide ChannelsOk, SingleFlight;
    var s' := Step(pool, s, a);
    assert forall u :: u != a.t ==> PcOf(s', u) == PcOf(s, u);
    ChannelsFrame(s, s');
    match a
    case Enqueue(t) => FlightEnqueue(s, s', t, PcOf(s, t).job);
    case TakeJob(t) => FlightTake(s, s', t);
    case Saturated(_) => FlightSame(s, s');
    case Hash(_, _) => FlightSame(s, s');
  }

  lemma TakePreserves(pool: Pool, s: State, a: Action)
    requires Inv(s) && Enabled(pool, s, a) && (a.Complete? || a.FailPending?)
    ensures Inv(Step(pool, s, a))
  {
    var s', pc := Step(pool, s, a), PcOf(s, a.t);
    var key, value := pc.key, if a.Complete? then pc.hash else "";
    assert Responsible(s, AThread(a.t), key);
    var taken := TakeSubscribers(s, a.t, key, value);
    FlightRelease(s, s', a.t, key);
    ChannelsTake(s, taken, a.t, key, value);
    assert forall u :: PcOf(s', u) == PcOf(taken, u);
    ChannelsFrame(taken, s');
    assert forall u :: u != a.t ==> PcOf(s', u) == PcOf(s, u);
  }

  lemma DeliverPreserves(pool: Pool, s: State, a: Action)
    requires Inv(s) && Enabled(pool, s, a) && (a.Send? || a.CloseChan? || a.Done?)
    ensures Inv(Step(pool, s, a))
  {
    hide ChannelsOk, SingleFlight;
    var s', pc := Step(pool, s, a), PcOf(s, a.t);
    assert !a.Done? ==> pc.subs != [];
    if a.Done? {
      ChannelsDone(s, s', a.t);
    } else {
      HeadChannel(s, a.t);
      if a.Send? {
        ChannelsServe(s, s', a.t, Sent(pc.value), WithThread(a.t), pc.(sent := true));
      } else {
        ChannelsServe(s, s', a.t, Closed(pc.value), Served, pc.(subs := pc.subs[1..], sent := false));
      }
    }
    assert forall u :: u != a.t ==> PcOf(s', u) == PcOf(s, u);
    FlightSame(s, s');
  }

  lemma StepPreserves(pool: Pool, s: State, a: Action)
    requires Inv(s) && Enabled(pool, s, a)
    ensures Inv(Step(pool, s, a))
  {
    hide Inv, Step;
    match a
    case SubmitHit(_, _) => SubmitPreserves(pool, s, a);
    case SubmitJoin(_, _) => SubmitPreserves(pool, s, a);
    case SubmitRegister(_, _) => SubmitPreserves(pool, s, a);
    case Complete(_) => TakePreserves(pool, s, a);
    case FailPending(_) => TakePreserves(pool, s, a);
    case Send(_) => DeliverPreserves(pool, s, a);
    case CloseChan(_) => DeliverPreserves(pool, s, a);
    case Done(_) => DeliverPreserves(pool, s, a);
    case _ => QueuePreserves(pool, s, a);
  }

  // ----- whole runs -----

  ghost predicate IsRun(pool: Pool, run: seq<State>, actions: seq<Action>) {
    && |run| == |actions| + 1 && run[0] == INITIAL
    && forall i :: 0 <= i < |actions| ==>
         Enabled(pool, run[i], actions[i]) && run[i + 1] == Step(pool, run[i], actions[i])
  }

  lemma {:induction false} RunInvariant(pool: Pool, run: seq<State>, actions: seq<Action>, n: nat)
    requires IsRun(pool, run, actions) && n < |run|
    ensures Inv(run[n])
  {
    if n > 0 {
      RunInvariant(pool, run, actions, n - 1);
      StepPreserves(pool, run[n - 1], actions[n - 1]);
    }
  }

  /** In every reachable state each pending key has exactly one responsible
      party, keys that are not pending have none, and so at most one job per key
      is queued or running. */
  lemma OneFlightPerKey(pool: Pool, run: seq<State>, actions: seq<Action>, n: nat, key: Key)
    requires IsRun(pool, run, actions) && n < |run|
    ensures key in run[n].pending <==> exists p :: Responsible(run[n], p, key)
    ensures forall p, q :: Responsible(run[n], p, key) && Responsible(run[n], q, key) ==> p == q
  {
    RunInvariant(pool, run, actions, n);
  }

  /** No send or close ever goes wrong, a channel is either served or held by a
      pending entry with a responsible party or by a delivering thread, and a
      served channel got "" or a hash computed for its own key. */
  lemma NoChannelOrphaned(pool: Pool, run: seq<State>, actions: seq<Action>, n: nat, c: Chan)
    requires IsRun(pool, run, actions) && n < |run| && c < |run[n].chans|
    ensures !run[n].faulted
    ensures var s := run[n];
            var ch := s.chans[c];
            match ch.owner
            case InPending =>
              ch.slot == Fresh && ch.key in s.pending && c in s.pending[ch.key]
              && exists p :: Responsible(s, p, ch.key)
            case WithThread(t) => !ch.slot.Closed? && PcOf(s, t).Delivering? && c in PcOf(s, t).subs
            case Served => ch.slot.Closed? && (ch.slot.value == "" || (ch.key, ch.slot.value) in s.computed)
  {
    RunInvariant(pool, run, actions, n);
    var s := run[n];
    assert HolderOk(s, c);
    var ch := s.chans[c];
    if ch.owner == InPending {
      assert EntryOk(s, ch.key, s.pending[ch.key]);
    } else if ch.owner.WithThread? {
      assert DeliveryOk(s, ch.owner.t, PcOf(s, ch.owner.t));
    }
  }

  /** Every cached value was computed by a worker for that key. */
  lemma CacheIsComputed(pool: Pool, run: seq<State>, actions: seq<Action>, n: nat, key: Key)
    requires IsRun(pool, run, actions) && n < |run| && key in run[n].cache
    ensures run[n].cache[key] != "" && (key, run[n].cache[key]) in run[n].computed
  {
    RunInvariant(pool, run, actions, n);
  }

  lemma StepKeepsCache(pool: Pool, s: State, a: Action, key: Key)
    requires Inv(s) && Enabled(pool, s, a) && key in s.cache
    ensures key in Step(pool, s, a).cache && Step(pool, s, a).cache[key] == s.cache[key]
  {
    hide ChannelsOk;
    if a.Complete? {
      assert Responsible(s, AThread(a.t), PcOf(s, a.t).key);
    }
  }

  /** A cached value stays, and once a key is cached nobody registers, queues or
      hashes it again. */
  lemma {:induction false} CachedForGood(pool: Pool, run: seq<State>, actions: seq<Action>, m: nat, n: nat, key: Key)
    requires IsRun(pool, run, actions) && m <= n < |run| && key in run[m].cache
    ensures key in run[n].cache && run[n].cache[key] == run[m].cache[key]
    ensures forall p :: !Responsible(run[n], p, key)
    decreases n
  {
    hide ChannelsOk, Step, Enabled;
    RunInvariant(pool, run, actions, n);
    if m < n {
      CachedForGood(pool, run, actions, m, n - 1, key);
      RunInvariant(pool, run, actions, n - 1);
      StepKeepsCache(pool, run[n - 1], actions[n - 1], key);
    }
  }

  /** A channel's life only goes forward: one send, then one close, same value. */
  predicate Forward(a: Slot, b: Slot) {
    a == b || a == Fresh || (a.Sent? && b == Closed(a.value))
  }

  lemma StepForward(pool: Pool, s: State, a: Action, c: Chan)
    requires Inv(s) && Enabled(pool, s, a) && c < |s.chans|
    ensures var s' := Step(pool, s, a);
            c < |s'.chans| && s'.chans[c].key == s.chans[c].key && Forward(s.chans[c].slot, s'.chans[c].slot)
  {
    if a.Send? || a.CloseChan? {
      HeadChannel(s, a.t);
    }
  }

  lemma {:induction false} ExactlyOnce(pool: Pool, run: seq<State>, actions: seq<Action>, m: nat, n: nat, c: Chan)
    requires IsRun(pool, run, actions) && m <= n < |run| && c < |run[m].chans|
    ensures c < |run[n].chans| && run[n].chans[c].key == run[m].chans[c].key
    ensures Forward(run[m].chans[c].slot, run[n].chans[c].slot)
    decreases n
  {
    if m < n {
      ExactlyOnce(pool, run, actions, m, n - 1, c);
      RunInvariant(pool, run, actions, n - 1);
      StepForward(pool, run[n - 1], actions[n - 1], c);
    }
  }

  /** Once all threads are idle and the queue is empty, nothing is pending and
      every subscriber has had its one value and its close. */
  lemma QuietMeansServed(pool: Pool, run: seq<State>, actions: seq<Action>, n: nat)
    requires IsRun(pool, run, actions) && n < |run|
    requires run[n].queue == [] && forall t :: PcOf(run[n], t).Idle?
    ensures run[n].pending == map[]
    ensures forall c :: 0 <= c < |run[n].chans| ==> run[n].chans[c].slot.Closed?
  {
    RunInvariant(pool, run, actions, n);
    var s := run[n];
    assert forall p, k :: !Responsible(s, p, k);
    assert forall k :: k !in s.pending;
    forall c | 0 <= c < |s.chans|
      ensures s.chans[c].slot.Closed?
    {
      assert HolderOk(s, c);
    }
  }

  // ----- who gets what -----

  /** Channel `c` has got `v`, or thread `t` still holds it to send `v`. */
  predicate Bound(s: State, c: Chan, t: Thread, v: string) {
    && c < |s.chans|
    && match s.chans[c].slot
       case Sent(w) => w == v
       case Closed(w) => w == v
       case Fresh =>
         && s.chans[c].owner == WithThread(t) && PcOf(s, t).Delivering?
         && PcOf(s, t).value == v && c in PcOf(s, t).subs
  }

  lemma StepBound(pool: Pool, s: State, a: Action, c: Chan, t: Thread, v: string)
    requires Inv(s) && Enabled(pool, s, a) && Bound(s, c, t, v)
    ensures Bound(Step(pool, s, a), c, t, v)
  {
    hide SingleFlight, CacheOk;
    StepForward(pool, s, a, c);
    if s.chans[c].slot == Fresh {
      if a.Send? || a.CloseChan? {
        HeadChannel(s, a.t);
      } else if a.Complete? || a.FailPending? {
        NotClaimed(s, c, PcOf(s, a.t).key);
      }
    }
  }

  lemma NotClaimed(s: State, c: Chan, key: Key)
    requires ChannelsOk(s) && c < |s.chans| && s.chans[c].owner != InPending
    ensures key in s.pending ==> c !in s.pending[key]
  {
    assert key in s.pending ==> EntryOk(s, key, s.pending[key]);
  }

  lemma TakeBinds(s: State, t: Thread, key: Key, v: string, c: Chan)
    requires ChannelsOk(s) && key in s.pending && c in s.pending[key]
    ensures Bound(TakeSubscribers(s, t, key, v), c, t, v)
  {
    assert EntryOk(s, key, s.pending[key]);
  }

  /** What the action that ends a flight hands to its subscribers. */
  function Verdict(s: State, a: Action): string
    requires (a.Complete? && PcOf(s, a.t).Hashed?) || a.FailPending?
  {
    if a.Complete? then PcOf(s, a.t).hash else ""
  }

  lemma {:induction false} FlightBinds(pool: Pool, run: seq<State>, actions: seq<Action>, m: nat, n: nat, c: Chan)
    requires IsRun(pool, run, actions) && m < n < |run| && (actions[m].Complete? || actions[m].FailPending?)
    requires var key := PcOf(run[m], actions[m].t).key; key in run[m].pending && c in run[m].pending[key]
    ensures Bound(run[n], c, actions[m].t, Verdict(run[m], actions[m]))
    decreases n
  {
    hide Bound, ChannelsOk, SingleFlight, CacheOk;
    RunInvariant(pool, run, actions, n - 1);
    if n == m + 1 {
      TakeBinds(run[m], actions[m].t, PcOf(run[m], actions[m].t).key, Verdict(run[m], actions[m]), c);
      SameBound(pool, run[m], actions[m], c);
    } else {
      FlightBinds(pool, run, actions, m, n - 1, c);
      StepBound(pool, run[n - 1], actions[n - 1], c, actions[m].t, Verdict(run[m], actions[m]));
    }
  }

  lemma SameBound(pool: Pool, s: State, a: Action, c: Chan)
    requires Enabled(pool, s, a) && (a.Complete? || a.FailPending?)
    requires Bound(TakeSubscribers(s, a.t, PcOf(s, a.t).key, Verdict(s, a)), c, a.t, Verdict(s, a))
    ensures Bound(Step(pool, s, a), c, a.t, Verdict(s, a))
  {
  }

  /** When a flight completes, everyone waiting for its key gets the hash the
      worker has just computed, and nothing else; when a submission is rejected,
      everyone waiting gets "". */
  lemma FlightDelivers(pool: Pool, run: seq<State>, actions: seq<Action>, m: nat, n: nat, c: Chan)
    requires IsRun(pool, run, actions) && m < n < |run| && (actions[m].Complete? || actions[m].FailPending?)
    requires var key := PcOf(run[m], actions[m].t).key; key in run[m].pending && c in run[m].pending[key]
    ensures c < |run[n].chans|
    ensures run[n].chans[c].slot.Sent? || run[n].chans[c].slot.Closed? ==>
              run[n].chans[c].slot.value == if actions[m].Complete? then PcOf(run[m], actions[m].t).hash else ""
  {
    FlightBinds(pool, run, actions, m, n, c);
  }

  /** A worker at step `i` found hash `v` for `key`. */
  predicate Found(run: seq<State>, actions: seq<Action>, i: nat, key: Key, v: string) {
    && i < |actions| && i < |run| && actions[i].Hash? && actions[i].hash == v
    && PcOf(run[i], actions[i].t).Running? && PcOf(run[i], actions[i].t).job.key == key
  }

  /** What counts as computed is what workers found, no more and no less. */
  lemma {:induction false} ComputedIsFound(pool: Pool, run: seq<State>, actions: seq<Action>, n: nat, key: Key, v: string)
    requires IsRun(pool, run, actions) && n < |run|
    ensures (key, v) in run[n].computed <==> exists i :: 0 <= i < n && Found(run, actions, i, key, v)
  {
    hide Step, Enabled;
    if n > 0 {
      ComputedIsFound(pool, run, actions, n - 1, key, v);
      StepComputes(pool, run[n - 1], actions[n - 1], key, v);
      assert (key, v) in run[n].computed <==> (key, v) in run[n - 1].computed || Found(run, actions, n - 1, key, v);
    }
  }

  lemma StepComputes(pool: Pool, s: State, a: Action, key: Key, v: string)
    requires Enabled(pool, s, a)
    ensures (key, v) in Step(pool, s, a).computed <==>
              (key, v) in s.computed || (a.Hash? && a.hash == v && PcOf(s, a.t).Running? && PcOf(s, a.t).job.key == key)
  {
  }

  /** What a submission that hits the cache is answered at once. */
  function HitAnswer(s: State, a: Action): string
    requires a.SubmitHit? && a.key in s.cache
  {
    s.cache[a.key]
  }

  /** A hit is answered with the hash that completed the key's flight. */
  lemma HitAnswersFlight(pool: Pool, run: seq<State>, actions: seq<Action>, m: nat, n: nat)
    requires IsRun(pool, run, actions) && m < n < |actions| && actions[m].Complete? && actions[n].SubmitHit?
    requires PcOf(run[m], actions[m].t).key == actions[n].key && PcOf(run[m], actions[m].t).hash != ""
    ensures HitAnswer(run[n], actions[n]) == PcOf(run[m], actions[m].t).hash
  {
    CachedForGood(pool, run, actions, m + 1, n, actions[n].key);
  }

  /** The queue never holds more than four jobs per worker, and a submission is
      rejected only when it holds that many. */
  lemma {:induction false} QueueBounded(pool: Pool, run: seq<State>, actions: seq<Action>, n: nat)
    requires IsRun(pool, run, actions) && n < |run|
    ensures |run[n].queue| <= 4 * |pool.workers|
    ensures n < |actions| && actions[n].Saturated? ==> |run[n].queue| == 4 * |pool.workers|
  {
    if n > 0 {
      QueueBounded(pool, run, actions, n - 1);
    }
  }

  // ----- the pool drains -----

  predicate IsSubmit(a: Action) { a.SubmitHit? || a.SubmitJoin? || a.SubmitRegister? }

  /** The steps a thread still has to take, its deliveries aside; a queued job
      is worth 4. */
  function Steps(pc: Pc): nat {
    match pc
    case Idle => 0
    case Registered(_) => 5
    case Rejected(_) => 2
    case Running(_) => 3
    case Hashed(_, _) => 2
    case Delivering(_, _, _, _) => 1
  }

  ghost function ThreadWork(pcs: map<Thread, Pc>): nat {
    if pcs == map[] then 0
    else
      var t :| t in pcs;
      Steps(pcs[t]) + ThreadWork(pcs - {t})
  }

  function ChannelWork(chans: seq<ChanInfo>): nat {
    if chans == [] then 0
    else
      var slot := chans[|chans| - 1].slot;
      ChannelWork(chans[..|chans| - 1]) + if slot == Fresh then 2 else if slot.Sent? then 1 else 0
  }

  ghost function Work(s: State): nat { ThreadWork(s.pcs) + 4 * |s.queue| + ChannelWork(s.chans) }

  lemma {:induction false} ThreadWorkWithout(pcs: map<Thread, Pc>, t: Thread)
    requires t in pcs
    ensures ThreadWork(pcs) == Steps(pcs[t]) + ThreadWork(pcs - {t})
    decreases |pcs|
  {
    var u :| u in pcs && ThreadWork(pcs) == Steps(pcs[u]) + ThreadWork(pcs - {u});
    if u != t {
      assert (pcs - {u}).Keys == pcs.Keys - {u} && (pcs - {t}).Keys == pcs.Keys - {t};
      ThreadWorkWithout(pcs - {u}, t);
      ThreadWorkWithout(pcs - {t}, u);
      assert pcs - {u} - {t} == pcs - {t} - {u};
    }
  }

  lemma ThreadWorkGoto(s: State, t: Thread, pc: Pc)
    ensures ThreadWork(s.pcs[t := pc]) + Steps(PcOf(s, t)) == ThreadWork(s.pcs) + Steps(pc)
  {
    ThreadWorkWithout(s.pcs[t := pc], t);
    assert s.pcs[t := pc] - {t} == s.pcs - {t};
    if t in s.pcs {
      ThreadWorkWithout(s.pcs, t);
    } else {
      assert s.pcs - {t} == s.pcs;
    }
  }

  lemma {:induction false} ChannelWorkSame(chans: seq<ChanInfo>, chans': seq<ChanInfo>)
    requires |chans| == |chans'| && forall c :: 0 <= c < |chans| ==> chans[c].slot == chans'[c].slot
    ensures ChannelWork(chans) == ChannelWork(chans')
  {
    if chans != [] {
      ChannelWorkSame(chans[..|chans| - 1], chans'[..|chans| - 1]);
    }
  }

  lemma {:induction false} ChannelWorkPut(chans: seq<ChanInfo>, c: Chan, ch: ChanInfo)
    requires c < |chans|
    requires (chans[c].slot == Fresh && ch.slot.Sent?) || (chans[c].slot.Sent? && ch.slot.Closed?)
    ensures ChannelWork(chans[c := ch]) < ChannelWork(chans)
  {
    var n := |chans| - 1;
    if c == n {
      assert chans[c := ch][..n] == chans[..n];
    } else {
      assert chans[c := ch][..n] == chans[..n][c := ch];
      ChannelWorkPut(chans[..n], c, ch);
    }
  }

  lemma QueueWork(pool: Pool, s: State, a: Action)
    requires Enabled(pool, s, a) && (a.Enqueue? || a.Saturated? || a.TakeJob? || a.Hash?)
    ensures Work(Step(pool, s, a)) < Work(s)
  {
    hide ThreadWork, ChannelWork, TakeSubscribers, Put;
    ThreadWorkGoto(s, a.t, Step(pool, s, a).pcs[a.t]);
  }

  lemma TakeWork(s: State, t: Thread, key: Key, value: string)
    requires Steps(PcOf(s, t)) == 2
    ensures Work(TakeSubscribers(s, t, key, value)) < Work(s)
  {
    hide ThreadWork, ChannelWork, Claim;
    var subs := if key in s.pending then s.pending[key] else [];
    ClaimWork(s.chans, subs, t);
    ThreadWorkGoto(s, t, Delivering(key, subs, value, false));
  }

  lemma ClaimWork(chans: seq<ChanInfo>, subs: seq<Chan>, t: Thread)
    ensures ChannelWork(Claim(chans, subs, t)) == ChannelWork(chans)
  {
    hide ChannelWork;
    var chans' := Claim(chans, subs, t);
    assert forall c :: 0 <= c < |chans| ==> chans[c].slot == chans'[c].slot;
    ChannelWorkSame(chans, chans');
  }

  lemma DeliverWork(pool: Pool, s: State, a: Action)
    requires ChannelsOk(s) && Enabled(pool, s, a) && (a.Send? || a.CloseChan? || a.Done?)
    ensures Work(Step(pool, s, a)) < Work(s)
  {
    hide ThreadWork, ChannelWork, ChannelsOk, TakeSubscribers;
    var s' := Step(pool, s, a);
    if !a.Done? {
      HeadChannel(s, a.t);
      var c := PcOf(s, a.t).subs[0];
      ChannelWorkPut(s.chans, c, s'.chans[c]);
    }
    ThreadWorkGoto(s, a.t, s'.pcs[a.t]);
  }

  /** Every step but a new submission brings the pool closer to rest. */
  lemma WorkDecreases(pool: Pool, s: State, a: Action)
    requires Inv(s) && Enabled(pool, s, a) && !IsSubmit(a)
    ensures Work(Step(pool, s, a)) < Work(s)
  {
    hide ThreadWork, ChannelWork, ChannelsOk, SingleFlight, CacheOk, TakeSubscribers, Put;
    match a
    case Complete(t) => TakeWork(s, t, PcOf(s, t).key, PcOf(s, t).hash);
    case FailPending(t) => TakeWork(s, t, PcOf(s, t).key, "");
    case Send(_) => DeliverWork(pool, s, a);
    case CloseChan(_) => DeliverWork(pool, s, a);
    case Done(_) => DeliverWork(pool, s, a);
    case _ => QueueWork(pool, s, a);
  }

  /** Once nobody submits any more, only so many steps are left, however the
      threads are scheduled. */
  lemma {:induction false} DrainsInBoundedSteps(pool: Pool, run: seq<State>, actions: seq<Action>, m: nat, n: nat)
    requires IsRun(pool, run, actions) && m <= n < |run|
    requires forall i :: m <= i < n ==> !IsSubmit(actions[i])
    ensures Work(run[n]) + (n - m) <= Work(run[m])
    decreases n
  {
    hide Work, Step, Enabled;
    if m < n {
      DrainsInBoundedSteps(pool, run, actions, m, n - 1);
      RunInvariant(pool, run, actions, n - 1);
      WorkDecreases(pool, run[n - 1], actions[n - 1]);
    }
  }

  /** The next step of a thread that has one; none of them waits for another. */
  function NextAction(pool: Pool, s: State, t: Thread): (a: Action)
    requires !PcOf(s, t).Idle?
    ensures Enabled(pool, s, a) && !IsSubmit(a)
  {
    match PcOf(s, t)
    case Registered(_) => if |s.queue| < Capacity(pool) then Enqueue(t) else Saturated(t)
    case Rejected(_) => FailPending(t)
    case Running(_) => Hash(t, "")
    case Hashed(_, _) => Complete(t)
    case Delivering(_, subs, _, sent) => if subs == [] then Done(t) else if sent then CloseChan(t) else Send(t)
  }

  /** The pool cannot get stuck with work left: in a state where no step but a
      new submission is possible, every subscriber has been served. */
  lemma StuckMeansServed(pool: Pool, run: seq<State>, actions: seq<Action>, n: nat)
    requires IsRun(pool, run, actions) && n < |run| && pool.workers != {}
    requires forall a :: Enabled(pool, run[n], a) ==> IsSubmit(a)
    ensures run[n].pending == map[]
    ensures forall c :: 0 <= c < |run[n].chans| ==> run[n].chans[c].slot.Closed?
  {
    hide IsRun, Step;
    var s := run[n];
    forall t
      ensures PcOf(s, t).Idle?
    {
      if !PcOf(s, t).Idle? {
        var a := NextAction(pool, s, t);
      }
    }
    var w :| w in pool.workers;
    assert s.queue != [] ==> Enabled(pool, s, TakeJob(w));
    QuietMeansServed(pool, run, actions, n);
  }
}
