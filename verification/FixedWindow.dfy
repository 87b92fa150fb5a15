/** The fixed-window rate limiter with lazy purging of expired keys. */
module FixedWindow {

  datatype Config = Config(limit: int, maxEntries: int, window: int)

  /** What NewFixedWindow accepts. */
  predicate Positive(c: Config) {
    c.limit >= 1 && c.maxEntries >= 1 && c.window > 0
  }

  datatype Entry = Entry(startedAt: int, attempts: int)

  type Entries = map<string, Entry>

  predicate Expired(c: Config, e: Entry, now: int) {
    now - e.startedAt >= c.window
  }

  /** The entries whose window is still open. */
  function Live(c: Config, m: Entries, now: int): Entries {
    map k | k in m && !Expired(c, m[k], now) :: m[k]
  }

  /** What Allow does: it drops the asked key if expired, and purges the rest only when the table is full. */
  function LazyStep(c: Config, m: Entries, key: string, now: int): (Entries, bool) {
    var kept := if key in m && Expired(c, m[key], now) then m - {key} else m;
    if key in kept then
      if kept[key].attempts >= c.limit then (kept, false)
      else (kept[key := kept[key].(attempts := kept[key].attempts + 1)], true)
    else
      var room := if |kept| >= c.maxEntries then Live(c, kept, now) else kept;
      if |room| >= c.maxEntries then (room, false)
      else (room[key := Entry(now, 1)], true)
  }

  /** The reference limiter: every call first forgets everything expired. */
  function EagerStep(c: Config, m: Entries, key: string, now: int): (Entries, bool) {
    var live := Live(c, m, now);
    if key in live then
      if live[key].attempts >= c.limit then (live, false)
      else (live[key := live[key].(attempts := live[key].attempts + 1)], true)
    else if |live| >= c.maxEntries then (live, false)
    else (live[key := Entry(now, 1)], true)
  }

  class Limiter {
    const config: Config
    var entries: Entries

    constructor (config: Config)
      requires Positive(config)
      ensures this.config == config && entries == map[]
    {
      this.config := config;
      entries := map[];
    }

    /** Deletes every expired key, visiting keys in any order. */
    method Purge(now: int)
      modifies this
      ensures entries == Live(config, old(entries), now)
    {
      var pending := entries.Keys;
      while pending != {}
        invariant pending <= entries.Keys <= old(entries).Keys
        invariant forall k | k in entries :: entries[k] == old(entries)[k]
        invariant forall k | k in old(entries) && k !in pending ::
                    k in entries <==> !Expired(config, old(entries)[k], now)
        invariant forall k | k in pending :: k in old(entries)
        decreases pending
      {
        var candidate :| candidate in pending;
        if Expired(config, entries[candidate], now) {
          entries := entries - {candidate};
        }
        pending := pending - {candidate};
      }
    }

    method Allow(key: string, now: int) returns (allowed: bool)
      modifies this
      ensures (entries, allowed) == LazyStep(config, old(entries), key, now)
    {
      if key in entries && Expired(config, entries[key], now) {
        entries := entries - {key};
      }
      if key !in entries {
        if |entries| >= config.maxEntries {
          Purge(now);
          if |entries| >= config.maxEntries { return false; }
        }
        entries := entries[key := Entry(now, 1)];
        return true;
      }
      if entries[key].attempts >= config.limit { return false; }
      entries := entries[key := entries[key].(attempts := entries[key].attempts + 1)];
      allowed := true;
    }
  }

  // ------------------------------------------------------- lazy agrees with eager

  lemma {:induction false} SubsetSize<T>(a: set<T>, b: set<T>)
    requires a <= b
    ensures |a| <= |b|
  {
    if a != {} {
      var x :| x in a;
      SubsetSize(a - {x}, b - {x});
    }
  }

  lemma LiveSize(c: Config, m: Entries, now: int)
    ensures |Live(c, m, now)| <= |m|
  {
    SubsetSize(Live(c, m, now).Keys, m.Keys);
  }

  /**
   On any table, a call is refused exactly when the key's live window is full, or the key has
   no live window and the maximum number of live windows exists.
   */
  lemma RefusesExactly(c: Config, m: Entries, key: string, now: int)
    ensures var live := Live(c, m, now);
            !LazyStep(c, m, key, now).1 <==>
            if key in live then live[key].attempts >= c.limit else |live| >= c.maxEntries
  {
    var kept := if key in m && Expired(c, m[key], now) then m - {key} else m;
    assert Live(c, kept, now) == Live(c, m, now);
    LiveSize(c, kept, now);
  }

  /** The table never outgrows its maximum. */
  lemma NeverOverfull(c: Config, m: Entries, key: string, now: int)
    requires Positive(c) && |m| <= c.maxEntries
    ensures |LazyStep(c, m, key, now).0| <= c.maxEntries
  {
    var kept := if key in m && Expired(c, m[key], now) then m - {key} else m;
    SubsetSize(kept.Keys, m.Keys);
    LiveSize(c, kept, now);
    if key in kept {
      assert kept[key := kept[key].(attempts := kept[key].attempts + 1)].Keys == kept.Keys;
    } else {
      var room := if |kept| >= c.maxEntries then Live(c, kept, now) else kept;
      assert room[key := Entry(now, 1)].Keys == room.Keys + {key};
    }
  }

  /** After a call, the live part of the lazy table is what the eager limiter keeps. */
  lemma SameLive(c: Config, lazy: Entries, eager: Entries, key: string, now: int)
    requires Positive(c) && Live(c, lazy, now) == Live(c, eager, now)
    ensures LazyStep(c, lazy, key, now).1 == EagerStep(c, eager, key, now).1
    ensures Live(c, LazyStep(c, lazy, key, now).0, now) == EagerStep(c, eager, key, now).0
  {
    RefusesExactly(c, lazy, key, now);
    var kept := if key in lazy && Expired(c, lazy[key], now) then lazy - {key} else lazy;
    assert Live(c, kept, now) == Live(c, lazy, now);
    assert Live(c, Live(c, kept, now), now) == Live(c, kept, now);
  }

  datatype Call = Call(key: string, now: int)

  /** Times never go back. */
  predicate Ordered(calls: seq<Call>) {
    forall i, j | 0 <= i < j < |calls| :: calls[i].now <= calls[j].now
  }

  /** The table after all calls, from an empty one. */
  function LazyTable(c: Config, calls: seq<Call>): Entries
    decreases |calls|
  {
    if calls == [] then map[]
    else LazyStep(c, LazyTable(c, calls[..|calls| - 1]), calls[|calls| - 1].key, calls[|calls| - 1].now).0
  }

  function EagerTable(c: Config, calls: seq<Call>): Entries
    decreases |calls|
  {
    if calls == [] then map[]
    else EagerStep(c, EagerTable(c, calls[..|calls| - 1]), calls[|calls| - 1].key, calls[|calls| - 1].now).0
  }

  /** The answer to the last of the calls. */
  predicate LazyAnswer(c: Config, calls: seq<Call>)
    requires calls != []
  {
    LazyStep(c, LazyTable(c, calls[..|calls| - 1]), calls[|calls| - 1].key, calls[|calls| - 1].now).1
  }

  predicate EagerAnswer(c: Config, calls: seq<Call>)
    requires calls != []
  {
    EagerStep(c, EagerTable(c, calls[..|calls| - 1]), calls[|calls| - 1].key, calls[|calls| - 1].now).1
  }

  function Times(calls: seq<Call>): (ts: seq<int>)
    ensures |ts| == |calls| && forall i | 0 <= i < |calls| :: ts[i] == calls[i].now
  {
    seq(|calls|, i requires 0 <= i < |calls| => calls[i].now)
  }

  /** No window that some call found over is open again at a later call. */
  predicate NoRevival(window: int, times: seq<int>) {
    forall i, j, k | 0 <= i < j < k < |times| ::
      times[j] - times[i] >= window ==> times[k] - times[i] >= window
  }

  /** Every window in the table was opened by one of the calls. */
  predicate Opened(m: Entries, times: seq<int>) {
    forall key | key in m :: m[key].startedAt in times
  }

  lemma StepOpened(c: Config, m: Entries, key: string, now: int, times: seq<int>)
    requires Opened(m, times)
    ensures Opened(LazyStep(c, m, key, now).0, times + [now])
  {
    assert now in times + [now] && forall t | t in times :: t in times + [now];
  }

  lemma {:induction false} TableOpened(c: Config, calls: seq<Call>)
    ensures Opened(LazyTable(c, calls), Times(calls))
    decreases |calls|
  {
    if calls != [] {
      var before, last := calls[..|calls| - 1], calls[|calls| - 1];
      hide LazyStep, Opened;
      TableOpened(c, before);
      StepOpened(c, LazyTable(c, before), last.key, last.now, Times(before));
      assert Times(calls) == Times(before) + [last.now];
    }
  }

  /** Without revivals, what was over at the last call is over now. */
  lemma StaysOver(c: Config, m: Entries, before: seq<int>, last: int, now: int)
    requires Positive(c) && Opened(m, before + [last]) && NoRevival(c.window, before + [last] + [now])
    ensures Live(c, m, now) == Live(c, Live(c, m, last), now)
  {
    var times := before + [last] + [now];
    forall key | key in m && Expired(c, m[key], last) ensures Expired(c, m[key], now) {
      var i :| 0 <= i <= |before| && (before + [last])[i] == m[key].startedAt;
      assert times[i] == m[key].startedAt && times[|before|] == last && times[|before| + 1] == now;
    }
  }

  lemma PrefixNoRevival(window: int, times: seq<int>, n: nat)
    requires NoRevival(window, times) && n <= |times|
    ensures NoRevival(window, times[..n])
  {
  }

  lemma {:induction false} TablesAgree(c: Config, calls: seq<Call>, now: int)
    requires Positive(c) && NoRevival(c.window, Times(calls) + [now])
    ensures Live(c, LazyTable(c, calls), now) == Live(c, EagerTable(c, calls), now)
    decreases |calls|
  {
    if calls != [] {
      hide LazyStep, EagerStep;
      var before, last := calls[..|calls| - 1], calls[|calls| - 1];
      assert Times(calls) == Times(before) + [last.now];
      PrefixNoRevival(c.window, Times(calls) + [now], |calls|);
      assert (Times(calls) + [now])[..|calls|] == Times(before) + [last.now];
      TablesAgree(c, before, last.now);
      SameLive(c, LazyTable(c, before), EagerTable(c, before), last.key, last.now);
      TableOpened(c, calls);
      StaysOver(c, LazyTable(c, calls), Times(before), last.now, now);
      assert Live(c, LazyTable(c, calls), last.now) == EagerTable(c, calls);
    }
  }

  /** Over every history without a revived window, the lazily purged limiter answers as the eager one. */
  lemma LazyAnswersAsEager(c: Config, calls: seq<Call>)
    requires Positive(c) && NoRevival(c.window, Times(calls)) && calls != []
    ensures LazyAnswer(c, calls) == EagerAnswer(c, calls)
    ensures |LazyTable(c, calls)| <= c.maxEntries
  {
    hide LazyStep, EagerStep;
    var before, last := calls[..|calls| - 1], calls[|calls| - 1];
    assert Times(calls) == Times(before) + [last.now];
    TablesAgree(c, before, last.now);
    SameLive(c, LazyTable(c, before), EagerTable(c, before), last.key, last.now);
    TableBounded(c, calls);
  }

  /** A clock that never goes back revives nothing. */
  lemma OrderedAgrees(c: Config, calls: seq<Call>)
    requires Positive(c) && Ordered(calls) && calls != []
    ensures LazyAnswer(c, calls) == EagerAnswer(c, calls)
  {
    assert NoRevival(c.window, Times(calls));
    LazyAnswersAsEager(c, calls);
  }

  lemma {:induction false} TableBounded(c: Config, calls: seq<Call>)
    requires Positive(c)
    ensures |LazyTable(c, calls)| <= c.maxEntries
    decreases |calls|
  {
    if calls != [] {
      TableBounded(c, calls[..|calls| - 1]);
      NeverOverfull(c, LazyTable(c, calls[..|calls| - 1]), calls[|calls| - 1].key, calls[|calls| - 1].now);
    }
  }

  const SKEWED := Config(1, 2, 10)
  const A_OPEN: Entries := map["a" := Entry(0, 1)]
  const B_OPEN: Entries := map["b" := Entry(20, 1)]
  const BOTH_OPEN: Entries := map["a" := Entry(0, 1), "b" := Entry(20, 1)]

  lemma FirstCall()
    ensures LazyStep(SKEWED, map[], "a", 0).0 == A_OPEN == EagerStep(SKEWED, map[], "a", 0).0
  {
    assert Live(SKEWED, map[], 0) == map[];
  }

  lemma LazySecond()
    ensures LazyStep(SKEWED, A_OPEN, "b", 20).0 == BOTH_OPEN
  {
  }

  lemma EagerSecond()
    ensures EagerStep(SKEWED, A_OPEN, "b", 20).0 == B_OPEN
  {
    assert Live(SKEWED, A_OPEN, 20) == map[];
  }

  lemma LazyThird()
    ensures !LazyStep(SKEWED, BOTH_OPEN, "a", 5).1
  {
  }

  lemma EagerThird()
    ensures EagerStep(SKEWED, B_OPEN, "a", 5).1
  {
    assert "a" !in Live(SKEWED, B_OPEN, 5);
    SubsetSize(Live(SKEWED, B_OPEN, 5).Keys, {"b"});
  }

  lemma OneMoreCall(c: Config, calls: seq<Call>, call: Call)
    ensures LazyTable(c, calls + [call]) == LazyStep(c, LazyTable(c, calls), call.key, call.now).0
    ensures EagerTable(c, calls + [call]) == EagerStep(c, EagerTable(c, calls), call.key, call.now).0
    ensures LazyAnswer(c, calls + [call]) == LazyStep(c, LazyTable(c, calls), call.key, call.now).1
    ensures EagerAnswer(c, calls + [call]) == EagerStep(c, EagerTable(c, calls), call.key, call.now).1
  {
    assert (calls + [call])[..|calls|] == calls;
  }

  /** The two differ once a clock goes back: a window the eager limiter forgot is still open in the lazy one. */
  lemma BackwardClockDiffers()
    ensures var calls := [Call("a", 0), Call("b", 20), Call("a", 5)];
            !Ordered(calls) && LazyAnswer(SKEWED, calls) != EagerAnswer(SKEWED, calls)
  {
    hide LazyStep, EagerStep, LazyAnswer, EagerAnswer;
    var calls := [Call("a", 0), Call("b", 20), Call("a", 5)];
    assert calls[1].now > calls[2].now;
    assert calls == [] + [Call("a", 0)] + [Call("b", 20)] + [Call("a", 5)];
    OneMoreCall(SKEWED, [], Call("a", 0));
    OneMoreCall(SKEWED, [] + [Call("a", 0)], Call("b", 20));
    OneMoreCall(SKEWED, [] + [Call("a", 0)] + [Call("b", 20)], Call("a", 5));
    FirstCall();
    LazySecond();
    EagerSecond();
    LazyThird();
    EagerThird();
  }

  // ------------------------------------------- exactly when lazy and eager agree

  /** The limiters give the same answer to every one of the calls. */
  predicate SameAnswers(c: Config, calls: seq<Call>) {
    forall n | 0 < n <= |calls| :: LazyAnswer(c, calls[..n]) == EagerAnswer(c, calls[..n])
  }

  /** Whatever the keys, the limit and the table size, calls at these times get the same answers. */
  ghost predicate AlwaysAgree(window: int, times: seq<int>) {
    forall c: Config, calls: seq<Call> | Positive(c) && c.window == window && Times(calls) == times ::
      SameAnswers(c, calls)
  }

  /** A name of its own for every number. */
  function Name(n: nat): (s: string)
    ensures |s| == n
  {
    seq(n, _ => 'x')
  }

  /** Every call has a key of its own, except that the last asks again for the key of call i. */
  function Probe(times: seq<int>, i: nat, k: nat): (calls: seq<Call>)
    requires i < k < |times|
    ensures |calls| == |times| && Times(calls) == times
  {
    seq(|times|, n requires 0 <= n < |times| => Call(Name(if n == k then i else n), times[n]))
  }

  /** One attempt per key, and room for every key. */
  function Roomy(window: int, times: seq<int>): Config {
    Config(1, |times| + 1, window)
  }

  /** The table of the first n calls, all of them still there. */
  predicate AllKept(m: Entries, times: seq<int>, n: nat)
    requires n <= |times|
  {
    && |m| == n
    && (forall key | key in m :: |key| < n)
    && (forall a | 0 <= a < n :: Name(a) in m && m[Name(a)] == Entry(times[a], 1))
  }

  lemma NameIsNew(m: Entries, n: nat)
    requires forall key | key in m :: |key| < n
    ensures Name(n) !in m
  {
  }

  /** A new key finds room and opens its window; nothing else changes. */
  lemma NewKey(c: Config, m: Entries, key: string, now: int)
    requires key !in m && |m| < c.maxEntries
    ensures LazyStep(c, m, key, now) == (m[key := Entry(now, 1)], true)
    ensures |m[key := Entry(now, 1)]| == |m| + 1
  {
    assert m[key := Entry(now, 1)].Keys == m.Keys + {key};
  }

  lemma KeepsAll(c: Config, m: Entries, times: seq<int>, n: nat)
    requires n < |times| < c.maxEntries && AllKept(m, times, n)
    ensures AllKept(LazyStep(c, m, Name(n), times[n]).0, times, n + 1)
  {
    hide LazyStep;
    NameIsNew(m, n);
    NewKey(c, m, Name(n), times[n]);
    var grown := m[Name(n) := Entry(times[n], 1)];
    forall a | 0 <= a < n + 1 ensures Name(a) in grown && grown[Name(a)] == Entry(times[a], 1) {
      if a < n { assert |Name(a)| != |Name(n)|; }
    }
  }

  lemma {:induction false} LazyKeepsAll(window: int, times: seq<int>, i: nat, k: nat, n: nat)
    requires i < k < |times| && n <= k
    ensures AllKept(LazyTable(Roomy(window, times), Probe(times, i, k)[..n]), times, n)
    decreases n
  {
    hide LazyStep;
    var c, calls := Roomy(window, times), Probe(times, i, k);
    if n > 0 {
      LazyKeepsAll(window, times, i, k, n - 1);
      KeepsAll(c, LazyTable(c, calls[..n - 1]), times, n - 1);
      assert calls[..n] == calls[..n - 1] + [Call(Name(n - 1), times[n - 1])];
      OneMoreCall(c, calls[..n - 1], Call(Name(n - 1), times[n - 1]));
    }
  }

  /** The eager table holds only keys of calls made, and not the key of call i once a call found it over. */
  predicate Forgotten(m: Entries, times: seq<int>, i: nat, j: nat, n: nat)
    requires i < j < |times|
  {
    && |m| <= n && (forall key | key in m :: |key| < n)
    && (Name(i) in m ==> m[Name(i)].startedAt == times[i])
    && (j < n ==> Name(i) !in m)
  }

  lemma Forgets(c: Config, m: Entries, times: seq<int>, i: nat, j: nat, n: nat)
    requires i < j < |times| && n < |times| && times[j] - times[i] >= c.window && Forgotten(m, times, i, j, n)
    ensures Forgotten(EagerStep(c, m, Name(n), times[n]).0, times, i, j, n + 1)
  {
    var live := Live(c, m, times[n]);
    NameIsNew(live, n);
    LiveSize(c, m, times[n]);
    assert live[Name(n) := Entry(times[n], 1)].Keys == live.Keys + {Name(n)};
    if n != i { assert |Name(n)| != |Name(i)|; }
  }

  lemma {:induction false} EagerForgets(window: int, times: seq<int>, i: nat, j: nat, k: nat, n: nat)
    requires i < j < k < |times| && n <= k && times[j] - times[i] >= window
    ensures Forgotten(EagerTable(Roomy(window, times), Probe(times, i, k)[..n]), times, i, j, n)
    decreases n
  {
    hide EagerStep;
    var c, calls := Roomy(window, times), Probe(times, i, k);
    if n > 0 {
      EagerForgets(window, times, i, j, k, n - 1);
      Forgets(c, EagerTable(c, calls[..n - 1]), times, i, j, n - 1);
      assert calls[..n] == calls[..n - 1] + [Call(Name(n - 1), times[n - 1])];
      OneMoreCall(c, calls[..n - 1], Call(Name(n - 1), times[n - 1]));
    }
  }

  lemma LazyRefuses(c: Config, m: Entries, times: seq<int>, i: nat, k: nat)
    requires i < k < |times| && c.limit == 1 && AllKept(m, times, k) && times[k] - times[i] < c.window
    ensures !LazyStep(c, m, Name(i), times[k]).1
  {
  }

  lemma EagerGrants(c: Config, m: Entries, times: seq<int>, i: nat, j: nat, k: nat)
    requires i < j < k < |times| < c.maxEntries && Forgotten(m, times, i, j, k)
    ensures EagerStep(c, m, Name(i), times[k]).1
  {
    LiveSize(c, m, times[k]);
  }

  /** Any revival is visible: with one attempt per key and room for all, the limiters differ at that call. */
  lemma RevivalDiffers(window: int, times: seq<int>, i: nat, j: nat, k: nat)
    requires i < j < k < |times| && times[j] - times[i] >= window > times[k] - times[i]
    ensures var c, calls := Roomy(window, times), Probe(times, i, k)[..k + 1];
            LazyAnswer(c, calls) != EagerAnswer(c, calls)
  {
    hide LazyStep, EagerStep, LazyAnswer, EagerAnswer;
    var c, calls := Roomy(window, times), Probe(times, i, k);
    LazyKeepsAll(window, times, i, k, k);
    EagerForgets(window, times, i, j, k, k);
    LazyRefuses(c, LazyTable(c, calls[..k]), times, i, k);
    EagerGrants(c, EagerTable(c, calls[..k]), times, i, j, k);
    assert calls[..k + 1] == calls[..k] + [Call(Name(i), times[k])];
    OneMoreCall(c, calls[..k], Call(Name(i), times[k]));
  }

  lemma NoRevivalAgrees(c: Config, calls: seq<Call>)
    requires Positive(c) && NoRevival(c.window, Times(calls))
    ensures SameAnswers(c, calls)
  {
    forall n | 0 < n <= |calls| ensures LazyAnswer(c, calls[..n]) == EagerAnswer(c, calls[..n]) {
      PrefixNoRevival(c.window, Times(calls), n);
      assert Times(calls[..n]) == Times(calls)[..n];
      LazyAnswersAsEager(c, calls[..n]);
    }
  }

  /**
   Exactly when lazy purging does not show: calls at these times get the same answers from both
   limiters, for all keys and settings with this window, if and only if no window is revived.
   */
  lemma AgreeIffNoRevival(window: int, times: seq<int>)
    requires window > 0
    ensures AlwaysAgree(window, times) <==> NoRevival(window, times)
  {
    hide LazyAnswer, EagerAnswer;
    if NoRevival(window, times) {
      forall c: Config, calls: seq<Call> | Positive(c) && c.window == window && Times(calls) == times
        ensures SameAnswers(c, calls)
      {
        NoRevivalAgrees(c, calls);
      }
    } else {
      var i, j, k :| 0 <= i < j < k < |times| && times[j] - times[i] >= window > times[k] - times[i];
      RevivalDiffers(window, times, i, j, k);
      var c, calls := Roomy(window, times), Probe(times, i, k);
      assert Positive(c) && c.window == window && Times(calls) == times;
      assert !SameAnswers(c, calls);
    }
  }

  // ------------------------------------------------- how many attempts get through

  /** How many of the calls were granted to the key within [from, from + window). */
  function Granted(c: Config, calls: seq<Call>, key: string, from: int): nat
    decreases |calls|
  {
    if calls == [] then 0
    else
      var last := calls[|calls| - 1];
      Granted(c, calls[..|calls| - 1], key, from)
      + if last.key == key && LazyAnswer(c, calls) && from <= last.now < from + c.window then 1 else 0
  }

  /** One more granted time: it joins the newest window, or opens one. */
  function Grow(ws: seq<seq<int>>, joins: bool, now: int): seq<seq<int>> {
    if joins && ws != [] then ws[..|ws| - 1] + [ws[|ws| - 1] + [now]] else ws + [[now]]
  }

  /** The granted times of a key, grouped by the window they were counted in. */
  function Windows(c: Config, calls: seq<Call>, key: string): seq<seq<int>>
    decreases |calls|
  {
    if calls == [] then []
    else
      var before, last := calls[..|calls| - 1], calls[|calls| - 1];
      if last.key != key || !LazyAnswer(c, calls) then Windows(c, before, key)
      else Grow(Windows(c, before, key), key in Live(c, LazyTable(c, before), last.now), last.now)
  }

  /** A window holds at most limit times, all within one window length of its first. */
  predicate WindowOk(c: Config, w: seq<int>) {
    && 1 <= |w| <= c.limit
    && (forall i | 0 <= i < |w| :: w[0] <= w[i] < w[0] + c.window)
  }

  predicate WindowsOk(c: Config, ws: seq<seq<int>>) {
    && (forall j | 0 <= j < |ws| :: WindowOk(c, ws[j]))
    && (forall j | 0 < j < |ws| :: ws[j - 1][0] + c.window <= ws[j][0])
  }

  /** The key's entry describes its newest window, or that window is over. */
  predicate Describes(c: Config, m: Entries, key: string, ws: seq<seq<int>>, now: int)
    requires WindowsOk(c, ws)
  {
    && (ws != [] ==> ws[|ws| - 1][0] <= now)
    && if key in Live(c, m, now) then ws != [] && m[key] == Entry(ws[|ws| - 1][0], |ws[|ws| - 1]|)
       else ws == [] || ws[|ws| - 1][0] + c.window <= now
  }

  lemma DescribesLater(c: Config, m: Entries, key: string, ws: seq<seq<int>>, now: int, later: int)
    requires WindowsOk(c, ws) && Describes(c, m, key, ws, now) && now <= later
    ensures Describes(c, m, key, ws, later)
  {
  }

  /** A call for another key neither opens, extends nor closes a live window of this key. */
  lemma OtherKey(c: Config, m: Entries, other: string, key: string, now: int)
    requires key != other
    ensures key in Live(c, LazyStep(c, m, other, now).0, now) <==> key in Live(c, m, now)
    ensures key in Live(c, m, now) ==> LazyStep(c, m, other, now).0[key] == m[key]
  {
  }

  lemma JoinOk(c: Config, ws: seq<seq<int>>, now: int)
    requires WindowsOk(c, ws) && ws != []
    requires ws[|ws| - 1][0] <= now < ws[|ws| - 1][0] + c.window && |ws[|ws| - 1]| < c.limit
    ensures WindowsOk(c, Grow(ws, true, now))
  {
    var grown := Grow(ws, true, now);
    forall j | 0 < j < |grown| ensures grown[j - 1][0] + c.window <= grown[j][0] {
      assert grown[j][0] == ws[j][0];
    }
  }

  lemma OpenOk(c: Config, ws: seq<seq<int>>, now: int)
    requires Positive(c) && WindowsOk(c, ws) && (ws != [] ==> ws[|ws| - 1][0] + c.window <= now)
    ensures WindowsOk(c, Grow(ws, false, now))
  {
  }

  /** One call for the key keeps its entry and its windows in step. */
  lemma OwnKey(c: Config, m: Entries, key: string, ws: seq<seq<int>>, now: int)
    requires Positive(c) && WindowsOk(c, ws) && Describes(c, m, key, ws, now)
    ensures var grown := if LazyStep(c, m, key, now).1 then Grow(ws, key in Live(c, m, now), now) else ws;
            WindowsOk(c, grown) && Describes(c, LazyStep(c, m, key, now).0, key, grown, now)
  {
    RefusesExactly(c, m, key, now);
    if LazyStep(c, m, key, now).1 {
      if key in Live(c, m, now) { JoinOk(c, ws, now); } else { OpenOk(c, ws, now); }
    }
  }

  lemma {:induction false} WindowsInvariant(c: Config, calls: seq<Call>, key: string, now: int)
    requires Positive(c) && Ordered(calls) && (calls != [] ==> calls[|calls| - 1].now <= now)
    ensures WindowsOk(c, Windows(c, calls, key))
    ensures Describes(c, LazyTable(c, calls), key, Windows(c, calls, key), now)
    decreases |calls|
  {
    if calls != [] {
      var before, last := calls[..|calls| - 1], calls[|calls| - 1];
      WindowsInvariant(c, before, key, last.now);
      var m, ws := LazyTable(c, before), Windows(c, before, key);
      if last.key == key { OwnKey(c, m, key, ws, last.now); } else { OtherKey(c, m, last.key, key, last.now); }
      DescribesLater(c, LazyTable(c, calls), key, Windows(c, calls, key), last.now, now);
    }
  }

  function Within(w: seq<int>, from: int, length: int): (n: nat)
    ensures n <= |w|
  {
    if w == [] then 0
    else Within(w[..|w| - 1], from, length) + if from <= w[|w| - 1] < from + length then 1 else 0
  }

  function AllWithin(ws: seq<seq<int>>, from: int, length: int): nat {
    if ws == [] then 0 else AllWithin(ws[..|ws| - 1], from, length) + Within(ws[|ws| - 1], from, length)
  }

  lemma {:induction false} NoneWithin(w: seq<int>, from: int, length: int)
    requires forall i | 0 <= i < |w| :: !(from <= w[i] < from + length)
    ensures Within(w, from, length) == 0
  {
    if w != [] { NoneWithin(w[..|w| - 1], from, length); }
  }

  /** A time outside the interval costs the window one of its places. */
  lemma {:induction false} FirstOutside(w: seq<int>, from: int, length: int)
    requires w != [] && !(from <= w[0] < from + length)
    ensures Within(w, from, length) <= |w| - 1
  {
    if |w| > 1 { FirstOutside(w[..|w| - 1], from, length); } else { NoneWithin(w, from, length); }
  }

  /** Windows that started a whole window length before the interval are out of it. */
  lemma {:induction false} OldWindows(c: Config, ws: seq<seq<int>>, from: int)
    requires Positive(c) && WindowsOk(c, ws) && (ws != [] ==> ws[|ws| - 1][0] <= from - c.window)
    ensures AllWithin(ws, from, c.window) == 0
    decreases |ws|
  {
    if ws != [] {
      NoneWithin(ws[|ws| - 1], from, c.window);
      OldWindows(c, ws[..|ws| - 1], from);
    }
  }

  /** When the newest window started before the interval, at most limit - 1 of its times fall inside. */
  lemma StartedBefore(c: Config, ws: seq<seq<int>>, from: int)
    requires Positive(c) && WindowsOk(c, ws) && (ws != [] ==> ws[|ws| - 1][0] < from)
    ensures AllWithin(ws, from, c.window) <= c.limit - 1
  {
    if ws != [] {
      FirstOutside(ws[|ws| - 1], from, c.window);
      OldWindows(c, ws[..|ws| - 1], from);
    }
  }

  lemma {:induction false} AtMostTwoWindows(c: Config, ws: seq<seq<int>>, from: int)
    requires Positive(c) && WindowsOk(c, ws)
    ensures AllWithin(ws, from, c.window) <= 2 * c.limit - 1
    decreases |ws|
  {
    if ws != [] {
      var newest, older := ws[|ws| - 1], ws[..|ws| - 1];
      if newest[0] < from {
        StartedBefore(c, ws, from);
      } else if newest[0] < from + c.window {
        StartedBefore(c, older, from);
      } else {
        NoneWithin(newest, from, c.window);
        AtMostTwoWindows(c, older, from);
      }
    }
  }

  lemma AllWithinGrow(ws: seq<seq<int>>, joins: bool, now: int, from: int, length: int)
    ensures AllWithin(Grow(ws, joins, now), from, length)
            == AllWithin(ws, from, length) + if from <= now < from + length then 1 else 0
  {
    var grown := Grow(ws, joins, now);
    if joins && ws != [] {
      var newest := ws[|ws| - 1];
      assert grown[..|grown| - 1] == ws[..|ws| - 1];
      assert (newest + [now])[..|newest|] == newest;
    } else {
      assert grown[..|grown| - 1] == ws;
      assert [now][..0] == [];
      assert Within([now], from, length) ==
             Within([now][..0], from, length) + if from <= now < from + length then 1 else 0;
    }
  }

  lemma {:induction false} GrantedIsWindows(c: Config, calls: seq<Call>, key: string, from: int)
    ensures Granted(c, calls, key, from) == AllWithin(Windows(c, calls, key), from, c.window)
    decreases |calls|
  {
    if calls != [] {
      var before, last := calls[..|calls| - 1], calls[|calls| - 1];
      GrantedIsWindows(c, before, key, from);
      AllWithinGrow(Windows(c, before, key), key in Live(c, LazyTable(c, before), last.now), last.now, from, c.window);
    }
  }

  /** For non-decreasing times, one key gets at most 2 * limit - 1 attempts in any interval of one window length. */
  lemma GrantedBound(c: Config, calls: seq<Call>, key: string, from: int)
    requires Positive(c) && Ordered(calls)
    ensures Granted(c, calls, key, from) <= 2 * c.limit - 1
  {
    GrantedIsWindows(c, calls, key, from);
    WindowsInvariant(c, calls, key, if calls == [] then 0 else calls[|calls| - 1].now);
    AtMostTwoWindows(c, Windows(c, calls, key), from);
  }
}
