/** Per-IP rate limiter with garbage collection (nexus_server/main.go).

    Time is a count of ticks since Go's zero time, and tokens are counted in
    the amount a bucket earns per tick, so a request costs `cost` units (the
    reciprocal of the rate) and a bucket holds at most burst * cost units. */
module IpLimiter {

  import opened Prelude

  datatype Config = Config(cost: nat, burst: nat, idleTTL: nat, maxSize: nat, gcEvery: nat) {
    function Capacity(): nat { burst * cost }

    /** An entry that has been idle for more than idleTTL has earned a burst. */
    predicate RefillsWhileIdle() { idleTTL + 1 >= Capacity() }
  }

  /** newIPLimiter for r requests a second, with `second` ticks to the second. */
  function NewConfig(r: nat, burst: nat, second: nat): Config
    requires r > 0
  {
    Config(second / r, burst, 600 * second, 50000, 60 * second)
  }

  /** The ten-minute idle time earns a whole burst exactly when 600 * r >= burst
      (tick chosen to divide 1/r evenly, and at least once). */
  lemma IdleTimeEarnsBurst(r: nat, burst: nat, second: nat)
    requires r > 0 && second > 0 && second % r == 0
    ensures NewConfig(r, burst, second).idleTTL >= NewConfig(r, burst, second).Capacity()
            <==> 600 * r >= burst
    ensures second >= 2 * r ==> (NewConfig(r, burst, second).RefillsWhileIdle() <==> 600 * r >= burst)
  {
    var c := second / r;
    assert second == r * c && c > 0;
    assert 600 * second == (600 * r) * c;
    ScaledIff(600 * r, burst, c);
    assert second >= 2 * r ==> c != 1;
  }

  lemma ScaledIff(a: nat, b: nat, c: nat)
    requires c > 0
    ensures a * c >= b * c <==> a >= b
    ensures c != 1 ==> (a * c + 1 >= b * c <==> a >= b)
  {
    if a >= b {
      ProductMonotone(b, a, c);
    } else {
      ProductMonotone(a + 1, b, c);
      OneMore(a, c);
    }
  }

  lemma OneMore(n: nat, c: nat)
    ensures 0 * c == 0 && (n + 1) * c == n * c + c && n * c >= 0
  {}

  // ---------- one token bucket (rate.Limiter) ----------

  datatype Bucket = Bucket(tokens: nat, last: nat)

  /** Units available at time `now`. */
  function Level(cfg: Config, b: Bucket, now: nat): int {
    Min(cfg.Capacity(), b.tokens + if now < b.last then 0 else now - b.last)
  }

  function FreshBucket(cfg: Config): Bucket {
    Bucket(cfg.Capacity(), 0)
  }

  /** Limiter.Allow: a denied request leaves the bucket as it was. */
  function Take(cfg: Config, b: Bucket, now: nat): (r: (Bucket, bool))
    ensures r.1 <==> cfg.burst >= 1 && Level(cfg, b, now) >= cfg.cost
    ensures Level(cfg, r.0, now) == Level(cfg, b, now) - if r.1 then cfg.cost else 0
  {
    var left := Level(cfg, b, now) - cfg.cost;
    if cfg.burst >= 1 && left >= 0 then (Bucket(left, now), true) else (b, false)
  }

  // ---------- the limiter's state and its steps ----------

  datatype Entry = Entry(lim: Bucket, last: nat)

  datatype State = State(entries: map<string, Entry>, lastGC: nat)

  function Initial(): State {
    State(map[], 0)
  }

  function NotIdle(entries: map<string, Entry>, cutoff: int): map<string, Entry> {
    map ip | ip in entries && entries[ip].last >= cutoff :: entries[ip]
  }

  /** Entries that survive the idle sweep at time `now`. */
  function Swept(cfg: Config, s: State, now: nat): map<string, Entry> {
    NotIdle(s.entries, now - cfg.idleTTL)
  }

  predicate GcDue(cfg: Config, s: State, now: nat) {
    now - s.lastGC >= cfg.gcEvery || |s.entries| >= cfg.maxSize
  }

  /** The cap branch fires: the idle sweep alone leaves too many entries. */
  predicate OverCap(cfg: Config, s: State, now: nat) {
    GcDue(cfg, s, now) && |Swept(cfg, s, now)| > cfg.maxSize
  }

  ghost predicate Submap<K, V>(a: map<K, V>, b: map<K, V>) {
    forall k :: k in a ==> k in b && a[k] == b[k]
  }

  /** gcLocked as a relation: which entries the cap branch drops depends on the
      order of a map iteration. */
  ghost predicate Collected(cfg: Config, s: State, now: nat, s': State) {
    if !GcDue(cfg, s, now) then s' == s
    else
      && s'.lastGC == now
      && if |Swept(cfg, s, now)| <= cfg.maxSize then s'.entries == Swept(cfg, s, now)
         else Submap(s'.entries, Swept(cfg, s, now)) && |s'.entries| == cfg.maxSize * 9 / 10
  }

  /** The part of `allow` after garbage collection. */
  function Admit(cfg: Config, s: State, ip: string, now: nat): (State, bool) {
    var e := if ip in s.entries then s.entries[ip] else Entry(FreshBucket(cfg), now);
    var (lim, ok) := Take(cfg, e.lim, now);
    (s.(entries := s.entries[ip := Entry(lim, now)]), ok)
  }

  class IpLimiter {
    const cfg: Config
    var entries: map<string, Entry>
    var lastGC: nat

    function Abs(): State
      reads this
    {
      State(entries, lastGC)
    }

    constructor (r: nat, burst: nat, second: nat)
      requires r > 0
      ensures cfg == NewConfig(r, burst, second)
      ensures Abs() == Initial()
    {
      cfg := NewConfig(r, burst, second);
      entries := map[];
      lastGC := 0;
    }

    method GcLocked(now: nat)
      modifies this
      ensures Collected(cfg, old(Abs()), now, Abs())
    {
      if now - lastGC < cfg.gcEvery && |entries| < cfg.maxSize {
        return;
      }
      var cutoff := now - cfg.idleTTL;
      EvictIdle(cutoff);
      if |entries| > cfg.maxSize {
        EvictAny(cfg.maxSize * 9 / 10);
      }
      lastGC := now;
    }

    /** The idle sweep: a range loop that deletes as it goes. */
    method EvictIdle(cutoff: int)
      modifies this`entries
      ensures entries == NotIdle(old(entries), cutoff)
    {
      var todo := entries.Keys;
      while todo != {}
        invariant todo <= entries.Keys <= old(entries).Keys
        invariant forall ip :: ip in entries ==> entries[ip] == old(entries)[ip]
        invariant forall ip :: ip in old(entries) && ip !in todo ==>
                    (ip in entries <==> old(entries)[ip].last >= cutoff)
        invariant forall ip :: ip in todo ==> ip in entries
        decreases todo
      {
        var ip :| ip in todo;
        if entries[ip].last < cutoff {
          entries := entries - {ip};
        }
        todo := todo - {ip};
      }
    }

    /** The cap branch: delete in arbitrary order down to `target` entries. */
    method EvictAny(target: nat)
      requires |entries| > target
      modifies this`entries
      ensures Submap(entries, old(entries)) && |entries| == target
    {
      while |entries| > target
        invariant Submap(entries, old(entries)) && |entries| >= target
        decreases |entries|
      {
        var ip :| ip in entries;
        var rest := entries - {ip};
        assert rest.Keys == entries.Keys - {ip};
        assert |rest| == |entries| - 1 by {
          assert |rest| == |rest.Keys| && |entries| == |entries.Keys|;
        }
        entries := rest;
      }
    }

    /** One call; `mid` is the state between garbage collection and admission.
        Whatever the state was before, at most maxSize + 1 entries remain. */
    method Allow(ip: string, now: nat) returns (ok: bool, ghost mid: State)
      modifies this
      ensures Collected(cfg, old(Abs()), now, mid)
      ensures (Abs(), ok) == Admit(cfg, mid, ip, now)
      ensures |entries| <= cfg.maxSize + 1
    {
      GcLocked(now);
      mid := Abs();
      SizeBound(cfg, old(Abs()), ip, now, mid);
      if ip !in entries {
        entries := entries[ip := Entry(FreshBucket(cfg), now)];
      }
      var e := entries[ip].(last := now);
      var (lim, admitted) := Take(cfg, e.lim, now);
      ok := admitted;
      entries := entries[ip := e.(lim := lim)];
      assert entries == Admit(cfg, mid, ip, now).0.entries;
    }
  }

  lemma SizeBound(cfg: Config, s: State, ip: string, now: nat, mid: State)
    requires Collected(cfg, s, now, mid)
    ensures |mid.entries| <= cfg.maxSize
    ensures |Admit(cfg, mid, ip, now).0.entries| <= cfg.maxSize + 1
  {
    var after := Admit(cfg, mid, ip, now).0;
    assert after.entries.Keys == mid.entries.Keys + {ip};
    assert |after.entries| == |after.entries.Keys| && |mid.entries| == |mid.entries.Keys|;
  }

  // ---------- runs ----------

  datatype Call = Call(ip: string, now: nat)

  ghost predicate Monotone(from: nat, calls: seq<Call>)
    decreases |calls|
  {
    calls == [] || (from <= calls[0].now && Monotone(calls[0].now, calls[1..]))
  }

  /** `mids[i]` is the state after the garbage collection of call i. */
  ghost predicate IsRun(cfg: Config, s: State, calls: seq<Call>, mids: seq<State>)
    decreases |calls|
  {
    && |mids| == |calls|
    && (calls != [] ==>
          && Collected(cfg, s, calls[0].now, mids[0])
          && IsRun(cfg, After(cfg, mids[0], calls[0]), calls[1..], mids[1..]))
  }

  function After(cfg: Config, mid: State, call: Call): State {
    Admit(cfg, mid, call.ip, call.now).0
  }

  ghost predicate CapNeverFires(cfg: Config, s: State, calls: seq<Call>, mids: seq<State>)
    requires |mids| == |calls|
    decreases |calls|
  {
    calls != [] ==>
      && !OverCap(cfg, s, calls[0].now)
      && CapNeverFires(cfg, After(cfg, mids[0], calls[0]), calls[1..], mids[1..])
  }

  function Answers(cfg: Config, calls: seq<Call>, mids: seq<State>): (r: seq<bool>)
    requires |mids| == |calls|
    ensures |r| == |calls|
  {
    if calls == [] then []
    else [Admit(cfg, mids[0], calls[0].ip, calls[0].now).1] + Answers(cfg, calls[1..], mids[1..])
  }

  // ---------- the reference: buckets that are never evicted ----------

  type Buckets = map<string, Bucket>

  function BucketOf(cfg: Config, m: Buckets, ip: string): Bucket {
    if ip in m then m[ip] else FreshBucket(cfg)
  }

  function KeepAll(cfg: Config, m: Buckets, calls: seq<Call>): (r: seq<bool>)
    ensures |r| == |calls|
    decreases |calls|
  {
    if calls == [] then []
    else
      [Take(cfg, BucketOf(cfg, m, calls[0].ip), calls[0].now).1] + KeepAll(cfg, Next(cfg, m, calls[0]), calls[1..])
  }

  function Next(cfg: Config, m: Buckets, call: Call): Buckets {
    m[call.ip := Take(cfg, BucketOf(cfg, m, call.ip), call.now).0]
  }

  /** Buckets in range, none used after time t. */
  ghost predicate GoodBuckets(cfg: Config, m: Buckets, t: nat) {
    forall ip :: ip in m ==> m[ip].tokens <= cfg.Capacity() && m[ip].last <= t
  }

  ghost predicate GoodEntries(cfg: Config, s: State, t: nat) {
    forall ip :: ip in s.entries ==>
      s.entries[ip].lim.tokens <= cfg.Capacity() && s.entries[ip].lim.last <= s.entries[ip].last <= t
  }

  /** What the collected map knows about an IP: an absent one counts as full. */
  function Known(cfg: Config, s: State, ip: string): Bucket {
    if ip in s.entries then s.entries[ip].lim else FreshBucket(cfg)
  }

  ghost predicate SameLevels(cfg: Config, s: State, m: Buckets, t: nat) {
    forall ip :: Level(cfg, Known(cfg, s, ip), t) == Level(cfg, BucketOf(cfg, m, ip), t)
  }

  /** Levels that agree at one time agree ever after. */
  lemma LevelsStayEqual(cfg: Config, a: Bucket, b: Bucket, t: nat, now: nat)
    requires a.tokens <= cfg.Capacity() && b.tokens <= cfg.Capacity()
    requires a.last <= t && b.last <= t && t <= now
    requires Level(cfg, a, t) == Level(cfg, b, t)
    ensures Level(cfg, a, now) == Level(cfg, b, now)
    ensures Level(cfg, a, now) == Min(cfg.Capacity(), Level(cfg, a, t) + (now - t))
  {}

  /** The idle sweep only forgets buckets that have refilled. */
  lemma SweepKeepsLevels(cfg: Config, s: State, t: nat, now: nat, mid: State)
    requires cfg.RefillsWhileIdle()
    requires GoodEntries(cfg, s, t) && t <= now
    requires Collected(cfg, s, now, mid) && !OverCap(cfg, s, now)
    ensures GoodEntries(cfg, mid, t)
    ensures forall ip :: Level(cfg, Known(cfg, mid, ip), now) == Level(cfg, Known(cfg, s, ip), now)
  {}

  /** Idle eviction is invisible: as long as the cap branch does not fire, the
      collected map answers every sequence of calls as the map that never
      evicts does. */
  lemma {:induction false} EvictionInvisible(cfg: Config, s: State, m: Buckets, t: nat,
                                             calls: seq<Call>, mids: seq<State>)
    requires cfg.RefillsWhileIdle()
    requires GoodEntries(cfg, s, t) && GoodBuckets(cfg, m, t) && SameLevels(cfg, s, m, t)
    requires Monotone(t, calls) && IsRun(cfg, s, calls, mids) && CapNeverFires(cfg, s, calls, mids)
    ensures Answers(cfg, calls, mids) == KeepAll(cfg, m, calls)
    decreases |calls|
  {
    if calls != [] {
      var call := calls[0];
      StepKeepsLevels(cfg, s, m, t, call, mids[0]);
      EvictionInvisible(cfg, After(cfg, mids[0], call), Next(cfg, m, call), call.now, calls[1..], mids[1..]);
    }
  }

  /** One call on both maps: same answer, and levels stay the same. */
  lemma StepKeepsLevels(cfg: Config, s: State, m: Buckets, t: nat, call: Call, mid: State)
    requires cfg.RefillsWhileIdle() && t <= call.now
    requires GoodEntries(cfg, s, t) && GoodBuckets(cfg, m, t) && SameLevels(cfg, s, m, t)
    requires Collected(cfg, s, call.now, mid) && !OverCap(cfg, s, call.now)
    ensures Admit(cfg, mid, call.ip, call.now).1 == Take(cfg, BucketOf(cfg, m, call.ip), call.now).1
    ensures GoodEntries(cfg, After(cfg, mid, call), call.now) && GoodBuckets(cfg, Next(cfg, m, call), call.now)
    ensures SameLevels(cfg, After(cfg, mid, call), Next(cfg, m, call), call.now)
  {
    var now := call.now;
    SweepKeepsLevels(cfg, s, t, now, mid);
    AdmitKeepsGood(cfg, mid, m, t, call);
    var s', m' := After(cfg, mid, call), Next(cfg, m, call);
    forall ip
      ensures Level(cfg, Known(cfg, s', ip), now) == Level(cfg, BucketOf(cfg, m', ip), now)
    {
      LevelsStayEqual(cfg, Known(cfg, s, ip), BucketOf(cfg, m, ip), t, now);
      CallKeepsLevel(cfg, mid, m, call, ip);
    }
  }

  lemma CallKeepsLevel(cfg: Config, mid: State, m: Buckets, call: Call, ip: string)
    requires Level(cfg, Known(cfg, mid, ip), call.now) == Level(cfg, BucketOf(cfg, m, ip), call.now)
    ensures Level(cfg, Known(cfg, After(cfg, mid, call), ip), call.now)
            == Level(cfg, BucketOf(cfg, Next(cfg, m, call), ip), call.now)
  {
    if ip != call.ip {
      assert Known(cfg, After(cfg, mid, call), ip) == Known(cfg, mid, ip);
      assert BucketOf(cfg, Next(cfg, m, call), ip) == BucketOf(cfg, m, ip);
    }
  }

  lemma AdmitKeepsGood(cfg: Config, mid: State, m: Buckets, t: nat, call: Call)
    requires GoodEntries(cfg, mid, t) && GoodBuckets(cfg, m, t) && t <= call.now
    ensures GoodEntries(cfg, After(cfg, mid, call), call.now)
    ensures GoodBuckets(cfg, Next(cfg, m, call), call.now)
  {}

  /** From the start, over a whole run. */
  lemma EvictionInvisibleFromStart(cfg: Config, calls: seq<Call>, mids: seq<State>)
    requires cfg.RefillsWhileIdle()
    requires Monotone(0, calls) && IsRun(cfg, Initial(), calls, mids)
    requires CapNeverFires(cfg, Initial(), calls, mids)
    ensures Answers(cfg, calls, mids) == KeepAll(cfg, map[], calls)
  {
    EvictionInvisible(cfg, Initial(), map[], 0, calls, mids);
  }

  // ---------- one IP does not hear of the others ----------

  function CallsOf(calls: seq<Call>, ip: string): seq<Call> {
    if calls == [] then []
    else (if calls[0].ip == ip then [calls[0]] else []) + CallsOf(calls[1..], ip)
  }

  function AnswersTo(calls: seq<Call>, answers: seq<bool>, ip: string): seq<bool>
    requires |answers| == |calls|
  {
    if calls == [] then []
    else (if calls[0].ip == ip then [answers[0]] else []) + AnswersTo(calls[1..], answers[1..], ip)
  }

  /** With nothing evicted, the answers to an IP are those it would get alone,
      from one token bucket that is full at first. */
  lemma {:induction false} AnswersStandAlone(cfg: Config, m: Buckets, calls: seq<Call>, ip: string)
    ensures AnswersTo(calls, KeepAll(cfg, m, calls), ip)
            == Bucketed(cfg, BucketOf(cfg, m, ip), CallsOf(calls, ip))
    decreases |calls|
  {
    if calls != [] {
      var call := calls[0];
      AnswersStandAlone(cfg, Next(cfg, m, call), calls[1..], ip);
      if call.ip == ip {
        assert CallsOf(calls, ip)[0] == call && CallsOf(calls, ip)[1..] == CallsOf(calls[1..], ip);
      } else {
        assert BucketOf(cfg, Next(cfg, m, call), ip) == BucketOf(cfg, m, ip);
        assert CallsOf(calls, ip) == CallsOf(calls[1..], ip);
      }
    }
  }

  /** What one token bucket answers. */
  function Bucketed(cfg: Config, b: Bucket, calls: seq<Call>): (r: seq<bool>)
    decreases |calls|
  {
    if calls == [] then []
    else
      var (b', ok) := Take(cfg, b, calls[0].now);
      [ok] + Bucketed(cfg, b', calls[1..])
  }

  // ---------- exactly which evictions are invisible ----------

  function AtOnce(ip: string, now: nat, n: nat): (calls: seq<Call>)
    ensures |calls| == n && Monotone(now, calls)
  {
    if n == 0 then [] else [Call(ip, now)] + AtOnce(ip, now, n - 1)
  }

  function Yes(n: nat): (r: seq<bool>)
    ensures |r| == n
  {
    if n == 0 then [] else [true] + Yes(n - 1)
  }

  /** n requests at one instant are all admitted iff the bucket holds n of them. */
  lemma {:induction false} AdmitsAtOnce(cfg: Config, m: Buckets, ip: string, now: nat, n: nat)
    requires n <= cfg.burst && Level(cfg, BucketOf(cfg, m, ip), now) >= 0
    ensures KeepAll(cfg, m, AtOnce(ip, now, n)) == Yes(n) <==>
            Level(cfg, BucketOf(cfg, m, ip), now) >= n * cfg.cost
    decreases n
  {
    if n > 0 {
      OneMore(n - 1, cfg.cost);
      var calls := AtOnce(ip, now, n);
      assert calls[0] == Call(ip, now) && calls[1..] == AtOnce(ip, now, n - 1);
      var m' := Next(cfg, m, Call(ip, now));
      var ok := Take(cfg, BucketOf(cfg, m, ip), now).1;
      assert BucketOf(cfg, m', ip) == Take(cfg, BucketOf(cfg, m, ip), now).0;
      AdmitsAtOnce(cfg, m', ip, now, n - 1);
      PrependEqual(ok, KeepAll(cfg, m', calls[1..]), true, Yes(n - 1));
    }
  }

  lemma PrependEqual(a: bool, s: seq<bool>, b: bool, t: seq<bool>)
    ensures [a] + s == [b] + t <==> a == b && s == t
  {
    if [a] + s == [b] + t {
      assert ([a] + s)[0] == ([b] + t)[0] && ([a] + s)[1..] == s && ([b] + t)[1..] == t;
    }
  }

  lemma {:induction false} SameAnswers(cfg: Config, m: Buckets, m': Buckets, t: nat, calls: seq<Call>)
    requires GoodBuckets(cfg, m, t) && GoodBuckets(cfg, m', t) && Monotone(t, calls)
    requires forall ip :: Level(cfg, BucketOf(cfg, m, ip), t) == Level(cfg, BucketOf(cfg, m', ip), t)
    ensures KeepAll(cfg, m, calls) == KeepAll(cfg, m', calls)
    decreases |calls|
  {
    if calls != [] {
      NextSameLevels(cfg, m, m', t, calls[0]);
      SameAnswers(cfg, Next(cfg, m, calls[0]), Next(cfg, m', calls[0]), calls[0].now, calls[1..]);
    }
  }

  lemma NextSameLevels(cfg: Config, m: Buckets, m': Buckets, t: nat, call: Call)
    requires GoodBuckets(cfg, m, t) && GoodBuckets(cfg, m', t) && t <= call.now
    requires forall ip :: Level(cfg, BucketOf(cfg, m, ip), t) == Level(cfg, BucketOf(cfg, m', ip), t)
    ensures Take(cfg, BucketOf(cfg, m, call.ip), call.now).1 == Take(cfg, BucketOf(cfg, m', call.ip), call.now).1
    ensures GoodBuckets(cfg, Next(cfg, m, call), call.now) && GoodBuckets(cfg, Next(cfg, m', call), call.now)
    ensures forall ip :: Level(cfg, BucketOf(cfg, Next(cfg, m, call), ip), call.now)
                      == Level(cfg, BucketOf(cfg, Next(cfg, m', call), ip), call.now)
  {
    var n, n' := Next(cfg, m, call), Next(cfg, m', call);
    forall ip
      ensures Level(cfg, BucketOf(cfg, n, ip), call.now) == Level(cfg, BucketOf(cfg, n', ip), call.now)
    {
      LevelsStayEqual(cfg, BucketOf(cfg, m, ip), BucketOf(cfg, m', ip), t, call.now);
      if ip != call.ip {
        assert BucketOf(cfg, n, ip) == BucketOf(cfg, m, ip) && BucketOf(cfg, n', ip) == BucketOf(cfg, m', ip);
      }
    }
  }

  /** From time `now` on, the two maps, evicting nothing more, give the same answers. */
  ghost predicate SameFuture(cfg: Config, m: Buckets, m': Buckets, now: nat) {
    forall calls :: Monotone(now, calls) ==> KeepAll(cfg, m, calls) == KeepAll(cfg, m', calls)
  }

  /** Forgetting a set of buckets once, as either eviction branch does, changes no
      answer of the map that evicts nothing more, if and only if every forgotten
      bucket is full. */
  lemma ForgettingInvisibleIffFull(cfg: Config, m: Buckets, victims: set<string>, now: nat)
    requires GoodBuckets(cfg, m, now)
    ensures SameFuture(cfg, m - victims, m, now)
       <==> (forall ip :: ip in m && ip in victims ==> Level(cfg, m[ip], now) == cfg.Capacity())
  {
    var rest := m - victims;
    if forall ip :: ip in m && ip in victims ==> Level(cfg, m[ip], now) == cfg.Capacity() {
      forall ip
        ensures Level(cfg, BucketOf(cfg, rest, ip), now) == Level(cfg, BucketOf(cfg, m, ip), now)
      {}
      forall calls | Monotone(now, calls)
        ensures KeepAll(cfg, rest, calls) == KeepAll(cfg, m, calls)
      {
        SameAnswers(cfg, rest, m, now, calls);
      }
    } else {
      var ip :| ip in m && ip in victims && Level(cfg, m[ip], now) != cfg.Capacity();
      var calls := AtOnce(ip, now, cfg.burst);
      AdmitsAtOnce(cfg, m, ip, now, cfg.burst);
      AdmitsAtOnce(cfg, rest, ip, now, cfg.burst);
      assert KeepAll(cfg, rest, calls) != KeepAll(cfg, m, calls);
    }
  }

  function BucketsOf(s: State): Buckets {
    map ip | ip in s.entries :: s.entries[ip].lim
  }

  /** So for one collection, by either branch, if nothing is evicted after it. */
  lemma CollectionInvisibleIff(cfg: Config, s: State, now: nat, mid: State)
    requires GoodEntries(cfg, s, now) && Collected(cfg, s, now, mid)
    ensures SameFuture(cfg, BucketsOf(mid), BucketsOf(s), now)
       <==> (forall ip :: ip in s.entries && ip !in mid.entries ==>
               Level(cfg, s.entries[ip].lim, now) == cfg.Capacity())
  {
    CollectedDrops(cfg, s, now, mid);
    DroppedBuckets(s, mid);
    ForgettingInvisibleIffFull(cfg, BucketsOf(s), s.entries.Keys - mid.entries.Keys, now);
  }

  lemma CollectedDrops(cfg: Config, s: State, now: nat, mid: State)
    requires Collected(cfg, s, now, mid)
    ensures Submap(mid.entries, s.entries)
  {}

  lemma DroppedBuckets(s: State, mid: State)
    requires Submap(mid.entries, s.entries)
    ensures BucketsOf(mid) == BucketsOf(s) - (s.entries.Keys - mid.entries.Keys)
  {}

  // ---------- exactly when idle eviction is invisible ----------

  /** Idle eviction never shows: whatever the calls from time t0 on, as long as
      the cap branch does not fire. */
  ghost predicate NeverShows(cfg: Config, t0: nat) {
    forall calls: seq<Call>, mids: seq<State> ::
      Monotone(t0, calls) && IsRun(cfg, Initial(), calls, mids) && CapNeverFires(cfg, Initial(), calls, mids) ==>
        Answers(cfg, calls, mids) == KeepAll(cfg, map[], calls)
  }

  /** Garbage collection when the cap branch does not fire. */
  function Collect(cfg: Config, s: State, now: nat): State {
    if GcDue(cfg, s, now) then State(Swept(cfg, s, now), now) else s
  }

  function MidsOf(cfg: Config, s: State, calls: seq<Call>): (mids: seq<State>)
    ensures |mids| == |calls|
    decreases |calls|
  {
    if calls == [] then []
    else
      var mid := Collect(cfg, s, calls[0].now);
      [mid] + MidsOf(cfg, After(cfg, mid, calls[0]), calls[1..])
  }

  function AfterAll(cfg: Config, s: State, calls: seq<Call>): State
    decreases |calls|
  {
    if calls == [] then s else AfterAll(cfg, After(cfg, Collect(cfg, s, calls[0].now), calls[0]), calls[1..])
  }

  function NextAll(cfg: Config, m: Buckets, calls: seq<Call>): Buckets
    decreases |calls|
  {
    if calls == [] then m else NextAll(cfg, Next(cfg, m, calls[0]), calls[1..])
  }

  function AnswersFrom(cfg: Config, s: State, calls: seq<Call>): seq<bool> {
    Answers(cfg, calls, MidsOf(cfg, s, calls))
  }

  lemma SweptFewer(cfg: Config, s: State, now: nat)
    ensures |Swept(cfg, s, now)| <= |s.entries|
  {
    assert Swept(cfg, s, now).Keys <= s.entries.Keys;
    SubsetSize(Swept(cfg, s, now).Keys, s.entries.Keys);
    assert |Swept(cfg, s, now)| == |Swept(cfg, s, now).Keys| && |s.entries| == |s.entries.Keys|;
  }

  lemma {:induction false} SubsetSize<T>(a: set<T>, b: set<T>)
    requires a <= b
    ensures |a| <= |b|
  {
    assert b == a + (b - a);
  }

  /** Calls of as many IPs as fit never make the cap branch fire. */
  lemma {:induction false} FewIpsRun(cfg: Config, s: State, ips: set<string>, calls: seq<Call>)
    requires |ips| <= cfg.maxSize && s.entries.Keys <= ips && forall i :: 0 <= i < |calls| ==> calls[i].ip in ips
    ensures IsRun(cfg, s, calls, MidsOf(cfg, s, calls)) && CapNeverFires(cfg, s, calls, MidsOf(cfg, s, calls))
    decreases |calls|
  {
    if calls != [] {
      var mid := Collect(cfg, s, calls[0].now);
      SweptFewer(cfg, s, calls[0].now);
      SubsetSize(s.entries.Keys, ips);
      assert |s.entries| == |s.entries.Keys|;
      FewIpsRun(cfg, After(cfg, mid, calls[0]), ips, calls[1..]);
      var mids := MidsOf(cfg, s, calls);
      assert mids[0] == mid && mids[1..] == MidsOf(cfg, After(cfg, mid, calls[0]), calls[1..]);
    }
  }

  lemma AnswersFromStep(cfg: Config, s: State, calls: seq<Call>)
    requires calls != []
    ensures var mid := Collect(cfg, s, calls[0].now);
            AnswersFrom(cfg, s, calls)
            == [Admit(cfg, mid, calls[0].ip, calls[0].now).1]
               + AnswersFrom(cfg, After(cfg, mid, calls[0]), calls[1..])
  {
    var mid := Collect(cfg, s, calls[0].now);
    assert MidsOf(cfg, s, calls)[1..] == MidsOf(cfg, After(cfg, mid, calls[0]), calls[1..]);
  }

  lemma Associative(a: seq<bool>, b: seq<bool>, c: seq<bool>)
    ensures a + (b + c) == a + b + c
  {}

  lemma {:induction false} AnswersAppend(cfg: Config, s: State, a: seq<Call>, b: seq<Call>)
    ensures AnswersFrom(cfg, s, a + b) == AnswersFrom(cfg, s, a) + AnswersFrom(cfg, AfterAll(cfg, s, a), b)
    decreases |a|
  {
    if a == [] {
      assert a + b == b;
    } else {
      var mid := Collect(cfg, s, a[0].now);
      var s', first := After(cfg, mid, a[0]), [Admit(cfg, mid, a[0].ip, a[0].now).1];
      calc {
        AnswersFrom(cfg, s, a + b);
        { AnswersFromStep(cfg, s, a + b); assert (a + b)[0] == a[0] && (a + b)[1..] == a[1..] + b; }
        first + AnswersFrom(cfg, s', a[1..] + b);
        { AnswersAppend(cfg, s', a[1..], b); }
        first + (AnswersFrom(cfg, s', a[1..]) + AnswersFrom(cfg, AfterAll(cfg, s', a[1..]), b));
        { Associative(first, AnswersFrom(cfg, s', a[1..]), AnswersFrom(cfg, AfterAll(cfg, s', a[1..]), b)); }
        first + AnswersFrom(cfg, s', a[1..]) + AnswersFrom(cfg, AfterAll(cfg, s', a[1..]), b);
        { AnswersFromStep(cfg, s, a); }
        AnswersFrom(cfg, s, a) + AnswersFrom(cfg, AfterAll(cfg, s, a), b);
      }
    }
  }

  lemma {:induction false} KeepAllAppend(cfg: Config, m: Buckets, a: seq<Call>, b: seq<Call>)
    ensures KeepAll(cfg, m, a + b) == KeepAll(cfg, m, a) + KeepAll(cfg, NextAll(cfg, m, a), b)
    decreases |a|
  {
    if a == [] {
      assert a + b == b;
    } else {
      assert (a + b)[0] == a[0] && (a + b)[1..] == a[1..] + b;
      KeepAllAppend(cfg, Next(cfg, m, a[0]), a[1..], b);
    }
  }

  predicate OnlyIp(s: State, ip: string) {
    s.entries.Keys <= {ip}
  }

  /** The IP's bucket is known as in m, and the entry, if any, was used just now. */
  predicate InStep(cfg: Config, s: State, m: Buckets, ip: string, now: nat) {
    && OnlyIp(s, ip) && Known(cfg, s, ip) == BucketOf(cfg, m, ip)
    && (ip in s.entries ==> s.entries[ip].last == now)
  }

  lemma InStepCall(cfg: Config, s: State, m: Buckets, ip: string, now: nat)
    requires InStep(cfg, s, m, ip, now)
    ensures var mid, call := Collect(cfg, s, now), Call(ip, now);
            && mid.entries == s.entries
            && Admit(cfg, mid, ip, now).1 == Take(cfg, BucketOf(cfg, m, ip), now).1
            && InStep(cfg, After(cfg, mid, call), Next(cfg, m, call), ip, now)
            && ip in After(cfg, mid, call).entries
  {}

  /** At one instant nothing is evicted, so the answers are those of the map that
      never evicts. */
  lemma {:induction false} SameInstant(cfg: Config, s: State, m: Buckets, ip: string, now: nat, n: nat)
    requires InStep(cfg, s, m, ip, now)
    ensures AnswersFrom(cfg, s, AtOnce(ip, now, n)) == KeepAll(cfg, m, AtOnce(ip, now, n))
    decreases n
  {
    if n > 0 {
      var calls := AtOnce(ip, now, n);
      assert calls[0] == Call(ip, now) && calls[1..] == AtOnce(ip, now, n - 1);
      InStepCall(cfg, s, m, ip, now);
      AnswersFromStep(cfg, s, calls);
      var s' := After(cfg, Collect(cfg, s, now), Call(ip, now));
      SameInstant(cfg, s', Next(cfg, m, Call(ip, now)), ip, now, n - 1);
    }
  }

  /** A burst at once empties a full bucket. */
  lemma {:induction false} Drained(cfg: Config, m: Buckets, ip: string, now: nat, n: nat)
    requires n <= cfg.burst && Level(cfg, BucketOf(cfg, m, ip), now) == n * cfg.cost
    requires BucketOf(cfg, m, ip).last <= now && BucketOf(cfg, m, ip).tokens <= cfg.Capacity()
    ensures var b := BucketOf(cfg, NextAll(cfg, m, AtOnce(ip, now, n)), ip);
            b.last <= now && b.tokens <= cfg.Capacity() && Level(cfg, b, now) == 0
    decreases n
  {
    if n > 0 {
      OneMore(n - 1, cfg.cost);
      var calls := AtOnce(ip, now, n);
      assert calls[0] == Call(ip, now) && calls[1..] == AtOnce(ip, now, n - 1);
      Drained(cfg, Next(cfg, m, Call(ip, now)), ip, now, n - 1);
    }
  }

  /** Every entry was used at time `now`, and a collection at time `later` is due
      once the IP has its entry, whatever collections come at `now`. */
  predicate SweepAhead(cfg: Config, s: State, ip: string, now: nat, later: nat) {
    && (forall other :: other in s.entries ==> s.entries[other].last == now)
    && (|| |s.entries.Keys + {ip}| >= cfg.maxSize
        || (s.lastGC + cfg.gcEvery <= later && (cfg.gcEvery == 0 || now < s.lastGC + cfg.gcEvery)))
  }

  lemma StepStaysAhead(cfg: Config, s: State, ip: string, now: nat, later: nat)
    requires SweepAhead(cfg, s, ip, now, later) && now <= later
    ensures SweepAhead(cfg, After(cfg, Collect(cfg, s, now), Call(ip, now)), ip, now, later)
    ensures ip in After(cfg, Collect(cfg, s, now), Call(ip, now)).entries
  {
    var mid := Collect(cfg, s, now);
    assert mid.entries == s.entries;
    var s' := After(cfg, mid, Call(ip, now));
    assert s'.entries.Keys + {ip} == s.entries.Keys + {ip};
    if |s.entries.Keys + {ip}| < cfg.maxSize {
      SubsetSize(s.entries.Keys, s.entries.Keys + {ip});
      assert |s.entries| == |s.entries.Keys|;
    }
  }

  lemma {:induction false} SweepStaysAhead(cfg: Config, s: State, ip: string, now: nat, later: nat, n: nat)
    requires SweepAhead(cfg, s, ip, now, later) && now <= later && (n > 0 || ip in s.entries)
    ensures SweepAhead(cfg, AfterAll(cfg, s, AtOnce(ip, now, n)), ip, now, later)
    ensures ip in AfterAll(cfg, s, AtOnce(ip, now, n)).entries
    decreases n
  {
    if n > 0 {
      var calls := AtOnce(ip, now, n);
      assert calls[0] == Call(ip, now) && calls[1..] == AtOnce(ip, now, n - 1);
      StepStaysAhead(cfg, s, ip, now, later);
      SweepStaysAhead(cfg, After(cfg, Collect(cfg, s, now), calls[0]), ip, now, later, n - 1);
    }
  }

  lemma {:induction false} AtOnceIsIp(ip: string, now: nat, n: nat)
    ensures forall i :: 0 <= i < n ==> AtOnce(ip, now, n)[i] == Call(ip, now)
  {
    if n > 0 {
      AtOnceIsIp(ip, now, n - 1);
    }
  }

  lemma MonotonePrepend(from: nat, call: Call, rest: seq<Call>)
    requires from <= call.now && Monotone(call.now, rest)
    ensures Monotone(from, [call] + rest)
  {
    assert ([call] + rest)[1..] == rest;
  }

  lemma MonotoneEarlier(from: nat, later: nat, calls: seq<Call>)
    requires from <= later && Monotone(later, calls)
    ensures Monotone(from, calls)
  {}

  lemma {:induction false} MonotoneAtOnceThen(ip: string, now: nat, n: nat, later: nat, b: seq<Call>, from: nat)
    requires from <= now <= later && Monotone(later, b)
    ensures Monotone(from, AtOnce(ip, now, n) + b)
    decreases n
  {
    if n == 0 {
      assert AtOnce(ip, now, 0) + b == b;
      MonotoneEarlier(from, later, b);
    } else {
      var rest := AtOnce(ip, now, n - 1) + b;
      assert AtOnce(ip, now, n) + b == [Call(ip, now)] + rest;
      MonotoneAtOnceThen(ip, now, n - 1, later, b, now);
      MonotonePrepend(from, Call(ip, now), rest);
    }
  }

  /** The sweep that comes just after the idle time empties the map. */
  lemma IdleEntriesGo(cfg: Config, s: State, ip: string, now: nat, later: nat)
    requires SweepAhead(cfg, s, ip, now, later) && ip in s.entries && later == now + cfg.idleTTL + 1
    ensures Collect(cfg, s, later) == State(map[], later)
    ensures Collect(cfg, State(map[], later), later) == State(map[], later)
  {
    assert |s.entries| == |s.entries.Keys| && s.entries.Keys + {ip} == s.entries.Keys;
    assert Swept(cfg, s, later) == map[] && Swept(cfg, State(map[], later), later) == map[];
  }

  /** Then the next burst is admitted in full. */
  lemma EvictedEarly(cfg: Config, s: State, ip: string, now: nat, later: nat)
    requires SweepAhead(cfg, s, ip, now, later) && ip in s.entries && later == now + cfg.idleTTL + 1
    requires cfg.burst >= 1
    ensures AnswersFrom(cfg, s, AtOnce(ip, later, cfg.burst)) == Yes(cfg.burst)
  {
    var calls, empty := AtOnce(ip, later, cfg.burst), State(map[], later);
    assert calls[0] == Call(ip, later);
    IdleEntriesGo(cfg, s, ip, now, later);
    AnswersFromStep(cfg, s, calls);
    AnswersFromStep(cfg, empty, calls);
    SameInstant(cfg, empty, map[], ip, later, cfg.burst);
    AdmitsAtOnce(cfg, map[], ip, later, cfg.burst);
  }

  /** The calls of another IP that time the collections, if two IPs fit: one
      that makes a collection happen, and one just before the bursts. */
  function Lead(cfg: Config, other: string, t0: nat): seq<Call> {
    if cfg.maxSize <= 1 then [] else [Call(other, t0 + cfg.gcEvery), Call(other, BurstTime(cfg, t0))]
  }

  function BurstTime(cfg: Config, t0: nat): nat {
    t0 + cfg.gcEvery + if cfg.gcEvery > cfg.idleTTL + 1 then cfg.gcEvery - (cfg.idleTTL + 1) else 0
  }

  lemma AfterOne(cfg: Config, s: State, m: Buckets, c: Call)
    ensures AfterAll(cfg, s, [c]) == After(cfg, Collect(cfg, s, c.now), c) && NextAll(cfg, m, [c]) == Next(cfg, m, c)
  {
    assert [c][1..] == [];
  }

  /** The state knows one IP, used last at `used`. */
  predicate KnowsOnly(s: State, ip: string, used: nat, lastGC: nat) {
    s.entries.Keys == {ip} && s.entries[ip].last == used && s.lastGC == lastGC
  }

  lemma FirstLeadCall(cfg: Config, other: string, u: nat)
    requires u >= cfg.gcEvery
    ensures KnowsOnly(After(cfg, Collect(cfg, Initial(), u), Call(other, u)), other, u, u)
  {
    assert Swept(cfg, Initial(), u) == map[];
  }

  lemma SecondLeadCall(cfg: Config, s: State, other: string, u: nat, now: nat)
    requires KnowsOnly(s, other, u, u) && cfg.maxSize > 1
    requires u <= now && (if cfg.gcEvery == 0 then now == u else now < u + cfg.gcEvery)
    ensures KnowsOnly(After(cfg, Collect(cfg, s, now), Call(other, now)), other, now, u)
  {
    assert |s.entries| == |s.entries.Keys|;
    if cfg.gcEvery == 0 {
      assert Swept(cfg, s, now) == s.entries;
    }
  }

  lemma {:induction false} AfterAllAppend(cfg: Config, s: State, m: Buckets, a: seq<Call>, b: seq<Call>)
    ensures AfterAll(cfg, s, a + b) == AfterAll(cfg, AfterAll(cfg, s, a), b)
    ensures NextAll(cfg, m, a + b) == NextAll(cfg, NextAll(cfg, m, a), b)
    decreases |a|
  {
    if a == [] {
      assert a + b == b;
    } else {
      assert (a + b)[0] == a[0] && (a + b)[1..] == a[1..] + b;
      AfterAllAppend(cfg, After(cfg, Collect(cfg, s, a[0].now), a[0]), Next(cfg, m, a[0]), a[1..], b);
    }
  }

  lemma AfterLead(cfg: Config, other: string, u: nat, now: nat)
    requires cfg.maxSize > 1 && u >= cfg.gcEvery
    requires u <= now && (if cfg.gcEvery == 0 then now == u else now < u + cfg.gcEvery)
    ensures KnowsOnly(AfterAll(cfg, Initial(), [Call(other, u)] + [Call(other, now)]), other, now, u)
    ensures NextAll(cfg, map[], [Call(other, u)] + [Call(other, now)]).Keys == {other}
  {
    var c, d := Call(other, u), Call(other, now);
    var s, m := AfterAll(cfg, Initial(), [c]), NextAll(cfg, map[], [c]);
    AfterAllAppend(cfg, Initial(), map[], [c], [d]);
    AfterOne(cfg, Initial(), map[], c);
    AfterOne(cfg, s, m, d);
    FirstLeadCall(cfg, other, u);
    SecondLeadCall(cfg, s, other, u, now);
  }

  /** Behind the two calls the next sweep is due in time. */
  lemma TwoCallsSweepAhead(cfg: Config, ip: string, other: string, u: nat, now: nat)
    requires cfg.maxSize > 1 && ip != other && u >= cfg.gcEvery && now + cfg.idleTTL + 1 >= u + cfg.gcEvery
    requires u <= now && (if cfg.gcEvery == 0 then now == u else now < u + cfg.gcEvery)
    ensures var lead := [Call(other, u)] + [Call(other, now)];
            && SweepAhead(cfg, AfterAll(cfg, Initial(), lead), ip, now, now + cfg.idleTTL + 1)
            && ip !in NextAll(cfg, map[], lead)
  {
    AfterLead(cfg, other, u, now);
    NextSweepDue(cfg, AfterAll(cfg, Initial(), [Call(other, u)] + [Call(other, now)]), ip, other, u, now);
  }

  lemma NextSweepDue(cfg: Config, s: State, ip: string, other: string, u: nat, now: nat)
    requires KnowsOnly(s, other, now, u) && now + cfg.idleTTL + 1 >= u + cfg.gcEvery
    requires cfg.gcEvery == 0 || now < u + cfg.gcEvery
    ensures SweepAhead(cfg, s, ip, now, now + cfg.idleTTL + 1)
  {}

  lemma NoCallsSweepAhead(cfg: Config, ip: string, now: nat)
    requires cfg.maxSize == 1
    ensures SweepAhead(cfg, AfterAll(cfg, Initial(), []), ip, now, now + cfg.idleTTL + 1)
    ensures ip !in NextAll(cfg, map[], [])
  {}

  lemma LeadSweepsAhead(cfg: Config, ip: string, other: string, t0: nat)
    requires cfg.maxSize >= 1 && ip != other
    ensures var now := BurstTime(cfg, t0);
            && SweepAhead(cfg, AfterAll(cfg, Initial(), Lead(cfg, other, t0)), ip, now, now + cfg.idleTTL + 1)
            && ip !in NextAll(cfg, map[], Lead(cfg, other, t0))
  {
    var u, now := t0 + cfg.gcEvery, BurstTime(cfg, t0);
    if cfg.maxSize > 1 {
      TwoCallsSweepAhead(cfg, ip, other, u, now);
      assert Lead(cfg, other, t0) == [Call(other, u)] + [Call(other, now)];
    } else {
      NoCallsSweepAhead(cfg, ip, now);
    }
  }

  /** Two bursts of one IP, the idle time apart. */
  function Bursts(cfg: Config, ip: string, other: string, t0: nat): seq<Call> {
    Lead(cfg, other, t0) + AtOnce(ip, BurstTime(cfg, t0), cfg.burst)
    + AtOnce(ip, BurstTime(cfg, t0) + cfg.idleTTL + 1, cfg.burst)
  }

  lemma BurstsMonotone(cfg: Config, ip: string, other: string, t0: nat)
    ensures Monotone(t0, Bursts(cfg, ip, other, t0))
  {
    var now := BurstTime(cfg, t0);
    var later := now + cfg.idleTTL + 1;
    var lead, a, b := Lead(cfg, other, t0), AtOnce(ip, now, cfg.burst), AtOnce(ip, later, cfg.burst);
    if cfg.maxSize <= 1 {
      assert Bursts(cfg, ip, other, t0) == a + b;
      MonotoneAtOnceThen(ip, now, cfg.burst, later, b, t0);
    } else {
      assert Bursts(cfg, ip, other, t0) == [lead[0]] + ([lead[1]] + (a + b));
      MonotoneAtOnceThen(ip, now, cfg.burst, later, b, now);
      MonotonePrepend(lead[0].now, lead[1], a + b);
      MonotonePrepend(t0, lead[0], [lead[1]] + (a + b));
    }
  }

  lemma BurstsRun(cfg: Config, ip: string, other: string, t0: nat)
    requires cfg.maxSize >= 1 && ip != other
    ensures var calls := Bursts(cfg, ip, other, t0);
            var mids := MidsOf(cfg, Initial(), calls);
            IsRun(cfg, Initial(), calls, mids) && CapNeverFires(cfg, Initial(), calls, mids)
  {
    var now := BurstTime(cfg, t0);
    AtOnceIsIp(ip, now, cfg.burst);
    AtOnceIsIp(ip, now + cfg.idleTTL + 1, cfg.burst);
    FewIpsRun(cfg, Initial(), if cfg.maxSize <= 1 then {ip} else {ip, other}, Bursts(cfg, ip, other, t0));
  }

  /** If the idle time does not earn a burst, then at any time two bursts that
      far apart can both be admitted in full, which the map that never evicts
      would not do. */
  lemma EarlyEvictionShows(cfg: Config, ip: string, other: string, t0: nat)
    returns (calls: seq<Call>, mids: seq<State>)
    requires cfg.maxSize >= 1 && ip != other && !cfg.RefillsWhileIdle()
    ensures Monotone(t0, calls) && IsRun(cfg, Initial(), calls, mids) && CapNeverFires(cfg, Initial(), calls, mids)
    ensures Answers(cfg, calls, mids) != KeepAll(cfg, map[], calls)
  {
    calls := Bursts(cfg, ip, other, t0);
    mids := MidsOf(cfg, Initial(), calls);
    BurstsMonotone(cfg, ip, other, t0);
    BurstsRun(cfg, ip, other, t0);
    BurstsDiffer(cfg, ip, other, t0);
  }

  lemma BurstsDiffer(cfg: Config, ip: string, other: string, t0: nat)
    requires cfg.maxSize >= 1 && ip != other && !cfg.RefillsWhileIdle()
    ensures AnswersFrom(cfg, Initial(), Bursts(cfg, ip, other, t0))
            != KeepAll(cfg, map[], Bursts(cfg, ip, other, t0))
  {
    LeadSweepsAhead(cfg, ip, other, t0);
    BurstsBehindDiffer(cfg, Lead(cfg, other, t0), ip, BurstTime(cfg, t0), BurstTime(cfg, t0) + cfg.idleTTL + 1);
  }

  lemma BurstsBehindDiffer(cfg: Config, lead: seq<Call>, ip: string, now: nat, later: nat)
    requires SweepAhead(cfg, AfterAll(cfg, Initial(), lead), ip, now, later) && ip !in NextAll(cfg, map[], lead)
    requires later == now + cfg.idleTTL + 1 && !cfg.RefillsWhileIdle()
    ensures var calls := lead + AtOnce(ip, now, cfg.burst) + AtOnce(ip, later, cfg.burst);
            AnswersFrom(cfg, Initial(), calls) != KeepAll(cfg, map[], calls)
  {
    AfterAllAppend(cfg, Initial(), map[], lead, AtOnce(ip, now, cfg.burst));
    SecondBurst(cfg, AfterAll(cfg, Initial(), lead), NextAll(cfg, map[], lead), ip, now, later);
    PrefixStillDiffers(cfg, Initial(), map[], lead + AtOnce(ip, now, cfg.burst), AtOnce(ip, later, cfg.burst));
  }

  lemma PrefixStillDiffers(cfg: Config, s: State, m: Buckets, a: seq<Call>, b: seq<Call>)
    requires AnswersFrom(cfg, AfterAll(cfg, s, a), b) != KeepAll(cfg, NextAll(cfg, m, a), b)
    ensures AnswersFrom(cfg, s, a + b) != KeepAll(cfg, m, a + b)
  {
    AnswersAppend(cfg, s, a, b);
    KeepAllAppend(cfg, m, a, b);
    SuffixDiffers(AnswersFrom(cfg, s, a), AnswersFrom(cfg, AfterAll(cfg, s, a), b),
                  KeepAll(cfg, m, a), KeepAll(cfg, NextAll(cfg, m, a), b));
  }

  lemma SecondBurst(cfg: Config, s: State, m: Buckets, ip: string, now: nat, later: nat)
    requires SweepAhead(cfg, s, ip, now, later) && ip !in m
    requires later == now + cfg.idleTTL + 1 && !cfg.RefillsWhileIdle()
    ensures var a, b := AtOnce(ip, now, cfg.burst), AtOnce(ip, later, cfg.burst);
            AnswersFrom(cfg, AfterAll(cfg, s, a), b) != KeepAll(cfg, NextAll(cfg, m, a), b)
  {
    assert cfg.burst >= 1 by { OneMore(cfg.burst, cfg.cost); }
    SweepStaysAhead(cfg, s, ip, now, later, cfg.burst);
    EvictedEarly(cfg, AfterAll(cfg, s, AtOnce(ip, now, cfg.burst)), ip, now, later);
    NotRefilled(cfg, m, ip, now, later);
  }

  lemma NotRefilled(cfg: Config, m: Buckets, ip: string, now: nat, later: nat)
    requires ip !in m && later == now + cfg.idleTTL + 1 && !cfg.RefillsWhileIdle()
    ensures KeepAll(cfg, NextAll(cfg, m, AtOnce(ip, now, cfg.burst)), AtOnce(ip, later, cfg.burst)) != Yes(cfg.burst)
  {
    var m' := NextAll(cfg, m, AtOnce(ip, now, cfg.burst));
    Drained(cfg, m, ip, now, cfg.burst);
    LevelsStayEqual(cfg, BucketOf(cfg, m', ip), BucketOf(cfg, m', ip), now, later);
    AdmitsAtOnce(cfg, m', ip, later, cfg.burst);
  }

  lemma SuffixDiffers(a: seq<bool>, b: seq<bool>, a': seq<bool>, c: seq<bool>)
    requires |a| == |a'| && b != c
    ensures a + b != a' + c
  {
    assert (a + b)[|a|..] == b && (a' + c)[|a|..] == c;
  }

  /** Whenever the limiter is put to use, idle eviction never shows if and only
      if the idle time earns a whole burst. */
  lemma NeverShowsIff(cfg: Config, t0: nat)
    requires cfg.maxSize >= 1
    ensures NeverShows(cfg, t0) <==> cfg.RefillsWhileIdle()
  {
    if cfg.RefillsWhileIdle() {
      forall calls: seq<Call>, mids: seq<State> | Monotone(t0, calls) && IsRun(cfg, Initial(), calls, mids)
                                                  && CapNeverFires(cfg, Initial(), calls, mids)
        ensures Answers(cfg, calls, mids) == KeepAll(cfg, map[], calls)
      {
        EvictionInvisible(cfg, Initial(), map[], t0, calls, mids);
      }
    } else {
      var calls, mids := EarlyEvictionShows(cfg, "", "a", t0);
    }
  }

  // ---------- exactly which collections show ----------

  /** Whatever is called from `now` on, the limiter in state mid answers as if
      it had the buckets m and never evicted one, as long as the cap branch does
      not fire again. */
  ghost predicate RunsAsIfKept(cfg: Config, mid: State, m: Buckets, now: nat) {
    forall calls: seq<Call>, mids: seq<State> ::
      Monotone(now, calls) && IsRun(cfg, mid, calls, mids) && CapNeverFires(cfg, mid, calls, mids) ==>
        Answers(cfg, calls, mids) == KeepAll(cfg, m, calls)
  }

  /** A collection that leaves `mid`, by either branch, never shows in the
      limiter's later runs if and only if every bucket it drops is full. */
  lemma CollectionNeverShowsIff(cfg: Config, s: State, now: nat, mid: State)
    requires cfg.RefillsWhileIdle() && cfg.maxSize >= 1
    requires GoodEntries(cfg, s, now) && Collected(cfg, s, now, mid)
    ensures RunsAsIfKept(cfg, mid, BucketsOf(s), now)
       <==> (forall ip :: ip in s.entries && ip !in mid.entries ==>
               Level(cfg, s.entries[ip].lim, now) == cfg.Capacity())
  {
    CollectedDrops(cfg, s, now, mid);
    if ip :| ip in s.entries && ip !in mid.entries && Level(cfg, s.entries[ip].lim, now) != cfg.Capacity() {
      OnlyTheCapDrops(cfg, s, now, mid, ip);
      DroppedShows(cfg, s, now, mid, ip);
    } else {
      forall calls: seq<Call>, mids: seq<State> | Monotone(now, calls) && IsRun(cfg, mid, calls, mids)
                                                  && CapNeverFires(cfg, mid, calls, mids)
        ensures Answers(cfg, calls, mids) == KeepAll(cfg, BucketsOf(s), calls)
      {
        EvictionInvisible(cfg, mid, BucketsOf(s), now, calls, mids);
      }
    }
  }

  /** A bucket that is not full is dropped only by the cap branch, which makes
      room for another IP. */
  lemma OnlyTheCapDrops(cfg: Config, s: State, now: nat, mid: State, ip: string)
    requires cfg.RefillsWhileIdle() && cfg.maxSize >= 1
    requires GoodEntries(cfg, s, now) && Collected(cfg, s, now, mid)
    requires ip in s.entries && ip !in mid.entries && Level(cfg, s.entries[ip].lim, now) != cfg.Capacity()
    ensures |mid.entries| < cfg.maxSize
  {
    assert Level(cfg, Known(cfg, mid, ip), now) != Level(cfg, Known(cfg, s, ip), now);
    if !OverCap(cfg, s, now) {
      SweepKeepsLevels(cfg, s, now, now, mid);
    }
  }

  /** A burst from an IP whose bucket was dropped before it was full. */
  lemma DroppedShows(cfg: Config, s: State, now: nat, mid: State, ip: string)
    requires cfg.RefillsWhileIdle() && GoodEntries(cfg, s, now)
    requires Submap(mid.entries, s.entries) && |mid.entries| < cfg.maxSize
    requires ip in s.entries && ip !in mid.entries && Level(cfg, s.entries[ip].lim, now) != cfg.Capacity()
    ensures !RunsAsIfKept(cfg, mid, BucketsOf(s), now)
  {
    var calls := AtOnce(ip, now, cfg.burst);
    var mids := MidsOf(cfg, mid, calls);
    OneMoreIpRuns(cfg, mid, ip, now);
    EvictionInvisible(cfg, mid, BucketsOf(mid), now, calls, mids);
    AdmitsAtOnce(cfg, BucketsOf(mid), ip, now, cfg.burst);
    AdmitsAtOnce(cfg, BucketsOf(s), ip, now, cfg.burst);
    assert Answers(cfg, calls, mids) != KeepAll(cfg, BucketsOf(s), calls);
  }

  lemma OneMoreIpRuns(cfg: Config, mid: State, ip: string, now: nat)
    requires |mid.entries| < cfg.maxSize
    ensures var calls := AtOnce(ip, now, cfg.burst);
            var mids := MidsOf(cfg, mid, calls);
            IsRun(cfg, mid, calls, mids) && CapNeverFires(cfg, mid, calls, mids)
  {
    AtOnceIsIp(ip, now, cfg.burst);
    assert |mid.entries| == |mid.entries.Keys|;
    FewIpsRun(cfg, mid, mid.entries.Keys + {ip}, AtOnce(ip, now, cfg.burst));
  }

  // ---------- the rate bound ----------

  /** Requests of one IP that the calls admit. */
  function Admitted(cfg: Config, calls: seq<Call>, mids: seq<State>, ip: string): nat
    requires |calls| == |mids|
  {
    if calls == [] then 0
    else Paid(cfg, mids[0], calls[0], ip) + Admitted(cfg, calls[1..], mids[1..], ip)
  }

  function Paid(cfg: Config, mid: State, call: Call, ip: string): nat {
    if call.ip == ip && Admit(cfg, mid, call.ip, call.now).1 then 1 else 0
  }

  /** Units those requests cost. */
  function Spent(cfg: Config, calls: seq<Call>, mids: seq<State>, ip: string): nat
    requires |calls| == |mids|
  {
    if calls == [] then 0
    else
      (if Paid(cfg, mids[0], calls[0], ip) == 1 then cfg.cost else 0)
      + Spent(cfg, calls[1..], mids[1..], ip)
  }

  lemma {:induction false} SpentIsCost(cfg: Config, calls: seq<Call>, mids: seq<State>, ip: string)
    requires |calls| == |mids|
    ensures Spent(cfg, calls, mids, ip) == Admitted(cfg, calls, mids, ip) * cfg.cost
  {
    if calls != [] {
      SpentIsCost(cfg, calls[1..], mids[1..], ip);
      OneMore(Admitted(cfg, calls[1..], mids[1..], ip), cfg.cost);
    }
  }

  function EndOf(calls: seq<Call>, t: nat): nat {
    if calls == [] then t else calls[|calls| - 1].now
  }

  lemma {:induction false} AdmittedFromState(cfg: Config, s: State, t: nat, calls: seq<Call>,
                                             mids: seq<State>, ip: string)
    requires cfg.RefillsWhileIdle() && GoodEntries(cfg, s, t)
    requires Monotone(t, calls) && IsRun(cfg, s, calls, mids) && CapNeverFires(cfg, s, calls, mids)
    ensures EndOf(calls, t) >= t
    ensures Spent(cfg, calls, mids, ip)
            <= Level(cfg, Known(cfg, s, ip), t) + (EndOf(calls, t) - t)
    decreases |calls|
  {
    if calls != [] {
      var call := calls[0];
      OneCallPays(cfg, s, t, call, mids[0], ip);
      AdmittedFromState(cfg, After(cfg, mids[0], call), call.now, calls[1..], mids[1..], ip);
      assert EndOf(calls, t) == EndOf(calls[1..], call.now);
    }
  }

  /** A call earns its IP the elapsed time and costs it `cost` if admitted. */
  lemma OneCallPays(cfg: Config, s: State, t: nat, call: Call, mid: State, ip: string)
    requires cfg.RefillsWhileIdle() && GoodEntries(cfg, s, t) && t <= call.now
    requires Collected(cfg, s, call.now, mid) && !OverCap(cfg, s, call.now)
    ensures GoodEntries(cfg, After(cfg, mid, call), call.now)
    ensures Level(cfg, Known(cfg, After(cfg, mid, call), ip), call.now)
            + (if Paid(cfg, mid, call, ip) == 1 then cfg.cost else 0)
            <= Level(cfg, Known(cfg, s, ip), t) + (call.now - t)
  {
    SweepKeepsLevels(cfg, s, t, call.now, mid);
    AdmitKeepsGood(cfg, mid, map[], t, call);
    LevelsStayEqual(cfg, Known(cfg, s, ip), Known(cfg, s, ip), t, call.now);
    assert Level(cfg, Known(cfg, mid, ip), call.now) == Level(cfg, Known(cfg, s, ip), call.now);
  }

  /** A run from a state whose buckets are good at time t. */
  ghost predicate GoodRun(cfg: Config, s: State, t: nat, calls: seq<Call>, mids: seq<State>) {
    && GoodEntries(cfg, s, t) && Monotone(t, calls)
    && IsRun(cfg, s, calls, mids) && CapNeverFires(cfg, s, calls, mids)
  }

  lemma GoodRunStep(cfg: Config, s: State, t: nat, calls: seq<Call>, mids: seq<State>)
    requires cfg.RefillsWhileIdle() && GoodRun(cfg, s, t, calls, mids) && calls != []
    ensures GoodRun(cfg, After(cfg, mids[0], calls[0]), calls[0].now, calls[1..], mids[1..])
  {
    SweepKeepsLevels(cfg, s, t, calls[0].now, mids[0]);
    AdmitKeepsGood(cfg, mids[0], map[], t, calls[0]);
  }

  /** A prefix of a run is a run. */
  lemma {:induction false} RunPrefix(cfg: Config, s: State, t: nat, calls: seq<Call>, mids: seq<State>, n: nat)
    requires n <= |calls| == |mids|
    requires Monotone(t, calls) && IsRun(cfg, s, calls, mids) && CapNeverFires(cfg, s, calls, mids)
    ensures Monotone(t, calls[..n]) && IsRun(cfg, s, calls[..n], mids[..n])
    ensures CapNeverFires(cfg, s, calls[..n], mids[..n])
    decreases n
  {
    if n > 0 {
      RunPrefix(cfg, After(cfg, mids[0], calls[0]), calls[0].now, calls[1..], mids[1..], n - 1);
      assert calls[1..][..n - 1] == calls[..n][1..] && mids[1..][..n - 1] == mids[..n][1..];
    }
  }

  lemma GoodLater(cfg: Config, s: State, t: nat, now: nat, calls: seq<Call>)
    requires GoodEntries(cfg, s, t) && Monotone(t, calls) && calls != [] && calls[0].now == now
    ensures GoodEntries(cfg, s, now) && Monotone(now, calls)
  {}

  lemma BoundFrom(cfg: Config, s: State, t: nat, calls: seq<Call>, mids: seq<State>, ip: string)
    requires cfg.RefillsWhileIdle() && calls != [] && GoodRun(cfg, s, t, calls, mids)
    ensures Admitted(cfg, calls, mids, ip) * cfg.cost
            <= cfg.burst * cfg.cost + (calls[|calls| - 1].now - calls[0].now)
  {
    GoodLater(cfg, s, t, calls[0].now, calls);
    AdmittedFromState(cfg, s, calls[0].now, calls, mids, ip);
    SpentIsCost(cfg, calls, mids, ip);
  }

  lemma TailSlice<T>(s: seq<T>, i: nat, j: nat)
    requires 0 < i <= j <= |s|
    ensures s[1..][i - 1..j - 1] == s[i..j]
  {}

  lemma {:induction false} WindowBoundFrom(cfg: Config, s: State, t: nat, calls: seq<Call>, mids: seq<State>,
                                           i: nat, j: nat, ip: string)
    requires cfg.RefillsWhileIdle() && i < j <= |calls| == |mids| && GoodRun(cfg, s, t, calls, mids)
    ensures Admitted(cfg, calls[i..j], mids[i..j], ip) * cfg.cost
            <= cfg.burst * cfg.cost + (calls[j - 1].now - calls[i].now)
    decreases i
  {
    if i == 0 {
      RunPrefix(cfg, s, t, calls, mids, j);
      BoundFrom(cfg, s, t, calls[..j], mids[..j], ip);
      assert calls[0..j] == calls[..j] && mids[0..j] == mids[..j];
    } else {
      GoodRunStep(cfg, s, t, calls, mids);
      var s' := After(cfg, mids[0], calls[0]);
      WindowBoundFrom(cfg, s', calls[0].now, calls[1..], mids[1..], i - 1, j - 1, ip);
      TailSlice(calls, i, j);
      TailSlice(mids, i, j);
    }
  }

  /** In any window of calls i..j of a run, one IP is admitted at most
      burst + rate * (length of the window) times. */
  lemma WindowBound(cfg: Config, calls: seq<Call>, mids: seq<State>, i: nat, j: nat, ip: string)
    requires cfg.RefillsWhileIdle() && i < j <= |calls|
    requires Monotone(0, calls) && IsRun(cfg, Initial(), calls, mids)
    requires CapNeverFires(cfg, Initial(), calls, mids)
    ensures Admitted(cfg, calls[i..j], mids[i..j], ip) * cfg.cost
            <= cfg.burst * cfg.cost + (calls[j - 1].now - calls[i].now)
  {
    WindowBoundFrom(cfg, Initial(), 0, calls, mids, i, j, ip);
  }

  // ---------- exactly when the cap branch fires ----------

  /** IPs that called at `cutoff` or later. */
  function Recent(past: seq<Call>, cutoff: int): set<string> {
    set c | c in past && c.now >= cutoff :: c.ip
  }

  /** The entries are the IPs of past calls, but for those idle since time t, each
      with the time of its last call. */
  ghost predicate KnowsPast(cfg: Config, s: State, past: seq<Call>, t: nat) {
    && (forall ip :: ip in s.entries ==> Call(ip, s.entries[ip].last) in past)
    && (forall c :: c in past && c.now >= t - cfg.idleTTL ==> c.ip in s.entries && s.entries[c.ip].last >= c.now)
  }

  lemma SweptIsRecent(cfg: Config, s: State, past: seq<Call>, t: nat, now: nat)
    requires KnowsPast(cfg, s, past, t) && t <= now
    ensures Swept(cfg, s, now).Keys == Recent(past, now - cfg.idleTTL)
  {
    forall ip | ip in Swept(cfg, s, now)
      ensures ip in Recent(past, now - cfg.idleTTL)
    {
      assert Call(ip, s.entries[ip].last) in past;
    }
  }

  lemma OverCapIff(cfg: Config, s: State, past: seq<Call>, t: nat, now: nat)
    requires KnowsPast(cfg, s, past, t) && t <= now
    ensures OverCap(cfg, s, now) <==> |Recent(past, now - cfg.idleTTL)| > cfg.maxSize
  {
    SweptIsRecent(cfg, s, past, t, now);
    SweptFewer(cfg, s, now);
    assert |Swept(cfg, s, now)| == |Swept(cfg, s, now).Keys|;
  }

  lemma StepKnowsPast(cfg: Config, s: State, past: seq<Call>, t: nat, call: Call, mid: State)
    requires KnowsPast(cfg, s, past, t) && t <= call.now && forall c :: c in past ==> c.now <= t
    requires Collected(cfg, s, call.now, mid) && !OverCap(cfg, s, call.now)
    ensures KnowsPast(cfg, After(cfg, mid, call), past + [call], call.now)
  {
    var s' := After(cfg, mid, call);
    forall c | c in past + [call] && c.now >= call.now - cfg.idleTTL
      ensures c.ip in s'.entries && s'.entries[c.ip].last >= c.now
    {
      if c in past {
        assert c.ip in s.entries && s.entries[c.ip].last >= c.now;
      }
    }
  }

  /** Before each call, at most maxSize IPs have called within the idle time. */
  ghost predicate FewRecent(cfg: Config, past: seq<Call>, calls: seq<Call>) {
    forall n :: 0 <= n < |calls| ==> FewBefore(cfg, past, calls, n)
  }

  ghost predicate FewBefore(cfg: Config, past: seq<Call>, calls: seq<Call>, n: nat)
    requires n < |calls|
  {
    |Recent(past + calls[..n], calls[n].now - cfg.idleTTL)| <= cfg.maxSize
  }

  lemma FewRecentStep(cfg: Config, past: seq<Call>, calls: seq<Call>)
    requires calls != []
    ensures FewRecent(cfg, past, calls) <==>
              |Recent(past, calls[0].now - cfg.idleTTL)| <= cfg.maxSize
              && FewRecent(cfg, past + [calls[0]], calls[1..])
  {
    assert past + calls[..0] == past;
    forall n: nat | n < |calls| - 1
      ensures FewBefore(cfg, past, calls, n + 1) <==> FewBefore(cfg, past + [calls[0]], calls[1..], n)
    {
      assert past + calls[..n + 1] == past + [calls[0]] + calls[1..][..n];
    }
    if FewRecent(cfg, past, calls) {
      assert FewBefore(cfg, past, calls, 0);
    }
    if FewRecent(cfg, past + [calls[0]], calls[1..]) {
      forall n | 1 <= n < |calls|
        ensures FewBefore(cfg, past, calls, n)
      {
        assert FewBefore(cfg, past + [calls[0]], calls[1..], n - 1);
      }
    }
  }

  ghost predicate PastInv(cfg: Config, s: State, past: seq<Call>, t: nat) {
    KnowsPast(cfg, s, past, t) && forall c :: c in past ==> c.now <= t
  }

  lemma StepKeepsPast(cfg: Config, s: State, past: seq<Call>, t: nat, call: Call, mid: State)
    requires PastInv(cfg, s, past, t) && t <= call.now
    requires Collected(cfg, s, call.now, mid) && !OverCap(cfg, s, call.now)
    ensures PastInv(cfg, After(cfg, mid, call), past + [call], call.now)
  {
    StepKnowsPast(cfg, s, past, t, call, mid);
  }

  lemma {:induction false} CapIff(cfg: Config, s: State, past: seq<Call>, t: nat, calls: seq<Call>, mids: seq<State>)
    requires PastInv(cfg, s, past, t) && Monotone(t, calls) && IsRun(cfg, s, calls, mids)
    ensures CapNeverFires(cfg, s, calls, mids) <==> FewRecent(cfg, past, calls)
    decreases |calls|
  {
    if calls == [] {
      assert FewRecent(cfg, past, calls);
    } else {
      var call, s' := calls[0], After(cfg, mids[0], calls[0]);
      OverCapIff(cfg, s, past, t, call.now);
      FewRecentStep(cfg, past, calls);
      CapNeverFiresStep(cfg, s, calls, mids);
      if !OverCap(cfg, s, call.now) {
        StepKeepsPast(cfg, s, past, t, call, mids[0]);
        CapIff(cfg, s', past + [call], call.now, calls[1..], mids[1..]);
      }
    }
  }

  lemma CapNeverFiresStep(cfg: Config, s: State, calls: seq<Call>, mids: seq<State>)
    requires calls != [] && |mids| == |calls|
    ensures CapNeverFires(cfg, s, calls, mids) <==>
              !OverCap(cfg, s, calls[0].now) && CapNeverFires(cfg, After(cfg, mids[0], calls[0]), calls[1..], mids[1..])
  {}

  /** Before each call, at most `most` IPs have called in the last `window`. */
  ghost predicate FewCallers(calls: seq<Call>, window: nat, most: nat) {
    forall n :: 0 <= n < |calls| ==> FewCallersAt(calls, n, window, most)
  }

  predicate FewCallersAt(calls: seq<Call>, n: nat, window: nat, most: nat)
    requires n < |calls|
  {
    |Recent(calls[..n], calls[n].now - window)| <= most
  }

  lemma FewFromStart(cfg: Config, calls: seq<Call>)
    ensures FewRecent(cfg, [], calls) <==> FewCallers(calls, cfg.idleTTL, cfg.maxSize)
  {
    forall n: nat | n < |calls|
      ensures FewBefore(cfg, [], calls, n) <==> FewCallersAt(calls, n, cfg.idleTTL, cfg.maxSize)
    {
      NothingBefore(cfg, calls, n);
    }
  }

  lemma NothingBefore(cfg: Config, calls: seq<Call>, n: nat)
    requires n < |calls|
    ensures FewBefore(cfg, [], calls, n) <==> FewCallersAt(calls, n, cfg.idleTTL, cfg.maxSize)
  {
    assert [] + calls[..n] == calls[..n];
  }

  /** The cap branch never fires in a run if and only if before each call at most
      maxSize IPs have called within the idle time: a condition on the calls. */
  lemma CapNeverFiresIff(cfg: Config, calls: seq<Call>, mids: seq<State>)
    requires Monotone(0, calls) && IsRun(cfg, Initial(), calls, mids)
    ensures CapNeverFires(cfg, Initial(), calls, mids) <==> FewCallers(calls, cfg.idleTTL, cfg.maxSize)
  {
    CapIff(cfg, Initial(), [], 0, calls, mids);
    FewFromStart(cfg, calls);
  }

  // ---------- the limiter as it is made ----------

  /** A limiter for r requests a second with bursts of at most 600 * r, as
      newIPLimiter makes it, called by at most 50000 IPs in any 600 seconds,
      never meets its cap, answers as if nothing were ever evicted, ... */
  lemma NewLimiterExact(r: nat, burst: nat, second: nat, calls: seq<Call>, mids: seq<State>)
    requires r > 0 && second > 0 && second % r == 0 && 600 * r >= burst
    requires Monotone(0, calls) && IsRun(NewConfig(r, burst, second), Initial(), calls, mids)
    requires FewCallers(calls, 600 * second, 50000)
    ensures NewConfig(r, burst, second).RefillsWhileIdle()
    ensures CapNeverFires(NewConfig(r, burst, second), Initial(), calls, mids)
    ensures Answers(NewConfig(r, burst, second), calls, mids) == KeepAll(NewConfig(r, burst, second), map[], calls)
  {
    IdleTimeEarnsBurst(r, burst, second);
    CapNeverFiresIff(NewConfig(r, burst, second), calls, mids);
    EvictionInvisibleFromStart(NewConfig(r, burst, second), calls, mids);
  }

  /** ... and in any window lets no IP through more than burst + r * (its length
      in seconds) times. */
  lemma NewLimiterBound(r: nat, burst: nat, second: nat, calls: seq<Call>, mids: seq<State>,
                        i: nat, j: nat, ip: string)
    requires r > 0 && second > 0 && second % r == 0 && 600 * r >= burst && i < j <= |calls|
    requires Monotone(0, calls) && IsRun(NewConfig(r, burst, second), Initial(), calls, mids)
    requires FewCallers(calls, 600 * second, 50000)
    ensures Admitted(NewConfig(r, burst, second), calls[i..j], mids[i..j], ip) * (second / r)
            <= burst * (second / r) + (calls[j - 1].now - calls[i].now)
  {
    NewLimiterExact(r, burst, second, calls, mids);
    WindowBound(NewConfig(r, burst, second), calls, mids, i, j, ip);
  }

  /** Its idle eviction never shows, whatever is called from time t0 on by at most
      50000 IPs in any 600 seconds. */
  ghost predicate NewLimiterNeverShows(r: nat, burst: nat, second: nat, t0: nat)
    requires r > 0
  {
    forall calls: seq<Call>, mids: seq<State> ::
      && Monotone(t0, calls) && IsRun(NewConfig(r, burst, second), Initial(), calls, mids)
      && FewCallers(calls, 600 * second, 50000) ==>
        Answers(NewConfig(r, burst, second), calls, mids) == KeepAll(NewConfig(r, burst, second), map[], calls)
  }

  /** Whenever it is put to use, that holds if and only if 600 * r >= burst. */
  lemma NewLimiterNeverShowsIff(r: nat, burst: nat, second: nat, t0: nat)
    requires r > 0 && second % r == 0 && second >= 2 * r
    ensures NewLimiterNeverShows(r, burst, second, t0) <==> 600 * r >= burst
  {
    if 600 * r >= burst {
      forall calls: seq<Call>, mids: seq<State> |
        && Monotone(t0, calls) && IsRun(NewConfig(r, burst, second), Initial(), calls, mids)
        && FewCallers(calls, 600 * second, 50000)
        ensures Answers(NewConfig(r, burst, second), calls, mids) == KeepAll(NewConfig(r, burst, second), map[], calls)
      {
        MonotoneEarlier(0, t0, calls);
        NewLimiterExact(r, burst, second, calls, mids);
      }
    } else {
      IdleTimeEarnsBurst(r, burst, second);
      var calls, mids := EarlyEvictionShows(NewConfig(r, burst, second), "", "a", t0);
      MonotoneEarlier(0, t0, calls);
      CapNeverFiresIff(NewConfig(r, burst, second), calls, mids);
    }
  }

  /** The server's own limiter, 10 requests a second with bursts of 30. */
  lemma GlobalLimiterInvisible(second: nat, calls: seq<Call>, mids: seq<State>)
    requires second > 0 && second % 10 == 0
    requires Monotone(0, calls) && IsRun(NewConfig(10, 30, second), Initial(), calls, mids)
    requires FewCallers(calls, 600 * second, 50000)
    ensures Answers(NewConfig(10, 30, second), calls, mids) == KeepAll(NewConfig(10, 30, second), map[], calls)
  {
    NewLimiterExact(10, 30, second, calls, mids);
  }

  /** What one collection of it does, in numbers: nothing within 60 seconds of the
      last while there are fewer than 50000 entries; else the entries idle for
      more than 600 seconds go, and if more than 50000 remain, all but some 45000
      of them. */
  lemma NewLimiterCollects(r: nat, burst: nat, second: nat, s: State, now: nat, mid: State)
    requires r > 0 && Collected(NewConfig(r, burst, second), s, now, mid)
    ensures var kept := set ip | ip in s.entries && s.entries[ip].last >= now - 600 * second;
            if now - s.lastGC < 60 * second && |s.entries| < 50000 then mid == s
            else
              && mid.lastGC == now && Submap(mid.entries, s.entries)
              && (if |kept| <= 50000 then mid.entries.Keys == kept
                  else mid.entries.Keys <= kept && |mid.entries| == 45000)
  {
    var cfg := NewConfig(r, burst, second);
    var kept := set ip | ip in s.entries && s.entries[ip].last >= now - 600 * second;
    assert Swept(cfg, s, now).Keys == kept;
    assert |Swept(cfg, s, now)| == |Swept(cfg, s, now).Keys|;
  }

  /** The entries of a state are no older than the last collection allows. */
  ghost predicate NoneStale(cfg: Config, s: State) {
    forall ip :: ip in s.entries ==> s.entries[ip].last >= s.lastGC - cfg.idleTTL
  }

  lemma {:induction false} EntriesFrom(cfg: Config, s: State, calls: seq<Call>, mids: seq<State>)
    requires NoneStale(cfg, s) && s.lastGC <= (if calls == [] then s.lastGC else calls[0].now)
    requires calls != [] && Monotone(calls[0].now, calls) && IsRun(cfg, s, calls, mids)
    ensures var last := calls[|calls| - 1];
            var s' := After(cfg, mids[|calls| - 1], last);
            && |s'.entries| <= cfg.maxSize + 1 && NoneStale(cfg, s')
            && (cfg.gcEvery > 0 ==> last.now - s'.lastGC < cfg.gcEvery)
            && forall ip :: ip in s'.entries ==> s'.entries[ip].last >= last.now - cfg.gcEvery - cfg.idleTTL
    decreases |calls|
  {
    var call, mid := calls[0], mids[0];
    var s' := After(cfg, mid, call);
    SizeBound(cfg, s, call.ip, call.now, mid);
    CallKeepsFresh(cfg, s, call, mid);
    if |calls| > 1 {
      EntriesFrom(cfg, s', calls[1..], mids[1..]);
    }
  }

  lemma CallKeepsFresh(cfg: Config, s: State, call: Call, mid: State)
    requires NoneStale(cfg, s) && s.lastGC <= call.now && Collected(cfg, s, call.now, mid)
    ensures NoneStale(cfg, After(cfg, mid, call)) && After(cfg, mid, call).lastGC <= call.now
    ensures call.now - After(cfg, mid, call).lastGC < cfg.gcEvery || After(cfg, mid, call).lastGC == call.now
  {}

  lemma EntriesAfter(cfg: Config, calls: seq<Call>, mids: seq<State>)
    requires calls != [] && Monotone(0, calls) && IsRun(cfg, Initial(), calls, mids)
    ensures var last := calls[|calls| - 1];
            var s := After(cfg, mids[|calls| - 1], last);
            && |s.entries| <= cfg.maxSize + 1
            && forall ip :: ip in s.entries ==> s.entries[ip].last >= last.now - cfg.gcEvery - cfg.idleTTL
  {
    EntriesFrom(cfg, Initial(), calls, mids);
  }

  /** After any call at most 50001 entries remain, none last used more than 660
      seconds before it, whoever called. */
  lemma NewLimiterStaysSmall(r: nat, burst: nat, second: nat, calls: seq<Call>, mids: seq<State>, n: nat)
    requires r > 0 && n < |calls| && Monotone(0, calls) && IsRun(NewConfig(r, burst, second), Initial(), calls, mids)
    ensures var s := After(NewConfig(r, burst, second), mids[n], calls[n]);
            |s.entries| <= 50001 && forall ip :: ip in s.entries ==> s.entries[ip].last >= calls[n].now - 660 * second
  {
    RunOnlyPrefix(NewConfig(r, burst, second), Initial(), 0, calls, mids, n + 1);
    EntriesAfter(NewConfig(r, burst, second), calls[..n + 1], mids[..n + 1]);
  }

  lemma {:induction false} RunOnlyPrefix(cfg: Config, s: State, t: nat, calls: seq<Call>, mids: seq<State>, n: nat)
    requires n <= |calls| == |mids| && Monotone(t, calls) && IsRun(cfg, s, calls, mids)
    ensures Monotone(t, calls[..n]) && IsRun(cfg, s, calls[..n], mids[..n])
    decreases n
  {
    if n > 0 {
      RunOnlyPrefix(cfg, After(cfg, mids[0], calls[0]), calls[0].now, calls[1..], mids[1..], n - 1);
      assert calls[1..][..n - 1] == calls[..n][1..] && mids[1..][..n - 1] == mids[..n][1..];
    }
  }
}
