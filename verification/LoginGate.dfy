/** The sliding-window login throttle: in-place filtering, sweeping, and the proof
    that neither ever changes an answer. Times are instants on one clock. */
module LoginGates {

  const MAX_GATE_KEYS := 50_000

  /** The gate's fields as one value. */
  datatype Gate = Gate(fails: map<string, seq<int>>, lastSeen: map<string, int>, sweptAt: int)

  /** The hits younger than the window, in order. */
  function Young(hits: seq<int>, now: int, window: int): seq<int> {
    if hits == [] then []
    else
      var at := hits[|hits| - 1];
      Young(hits[..|hits| - 1], now, window) + (if now - at < window then [at] else [])
  }

  function Stored(g: Gate, key: string): seq<int> {
    if key in g.fails then g.fails[key] else []
  }

  function Store(g: Gate, key: string, hits: seq<int>, now: int): Gate {
    if hits == [] then g.(fails := g.fails - {key}, lastSeen := g.lastSeen - {key})
    else g.(fails := g.fails[key := hits], lastSeen := g.lastSeen[key := now])
  }

  predicate SweepDue(g: Gate, now: int, window: int) {
    !(|g.fails| < MAX_GATE_KEYS && now - g.sweptAt < window)
  }

  function Stale(g: Gate, now: int, window: int): set<string> {
    set key | key in g.lastSeen && now - g.lastSeen[key] >= window
  }

  function Sweep(g: Gate, now: int, window: int): Gate {
    if SweepDue(g, now, window) then
      var stale := Stale(g, now, window);
      Gate(g.fails - stale, g.lastSeen - stale, now)
    else g
  }

  /** What Allow keeps of a key's hits. */
  function Kept(g: Gate, key: string, window: int, now: int): seq<int> {
    Young(Stored(Sweep(g, now, window), key), now, window)
  }

  function AfterAllow(g: Gate, key: string, window: int, now: int): Gate {
    Store(Sweep(g, now, window), key, Kept(g, key, window, now), now)
  }

  function AfterFail(g: Gate, key: string, now: int): Gate {
    Store(g, key, Stored(g, key) + [now], now)
  }

  function AfterClear(g: Gate, key: string): Gate {
    g.(fails := g.fails - {key}, lastSeen := g.lastSeen - {key})
  }

  class LoginGate {
    var fails: map<string, seq<int>>
    var lastSeen: map<string, int>
    var sweptAt: int

    ghost function State(): Gate
      reads this
    {
      Gate(fails, lastSeen, sweptAt)
    }

    constructor ()
      ensures State() == Gate(map[], map[], 0)
    {
      fails, lastSeen, sweptAt := map[], map[], 0;
    }

    method Allow(key: string, max: int, window: int, now: int) returns (ok: bool)
      modifies this
      ensures State() == AfterAllow(old(State()), key, window, now)
      ensures ok <==> |Kept(old(State()), key, window, now)| < max
    {
      SweepLocked(now, window);
      var hits := if key in fails then fails[key] else [];
      ghost var all := hits;
      var w := 0;
      for r := 0 to |hits|
        invariant w <= r && |hits| == |all|
        invariant hits[..w] == Young(all[..r], now, window)
        invariant hits[r..] == all[r..]
      {
        assert hits[r] == hits[r..][0] == all[r..][0] == all[r];
        assert all[..r + 1][..r] == all[..r];
        var at := hits[r];
        if now - at < window {
          ghost var before := hits;
          hits := hits[w := at];
          assert hits[..w + 1] == before[..w] + [at];
          w := w + 1;
        }
        assert hits[r + 1..] == all[r + 1..];
      }
      assert all[..|all|] == all;
      var kept := hits[..w];
      StoreHits(key, kept, now);
      return |kept| < max;
    }

    method Fail(key: string, now: int)
      modifies this
      ensures State() == AfterFail(old(State()), key, now)
      ensures fails == old(fails)[key := (if key in old(fails) then old(fails)[key] else []) + [now]]
      ensures lastSeen == old(lastSeen)[key := now] && sweptAt == old(sweptAt)
    {
      StoreHits(key, (if key in fails then fails[key] else []) + [now], now);
    }

    method Clear(key: string)
      modifies this
      ensures State() == AfterClear(old(State()), key)
      ensures key !in fails && key !in lastSeen && sweptAt == old(sweptAt)
      ensures forall k :: k != key ==> (k in fails <==> k in old(fails)) && (k in lastSeen <==> k in old(lastSeen))
      ensures forall k :: k in fails ==> fails[k] == old(fails)[k]
      ensures forall k :: k in lastSeen ==> lastSeen[k] == old(lastSeen)[k]
    {
      fails := fails - {key};
      lastSeen := lastSeen - {key};
    }

    method StoreHits(key: string, hits: seq<int>, now: int)
      modifies this
      ensures State() == Store(old(State()), key, hits, now)
    {
      if |hits| == 0 {
        fails := fails - {key};
        lastSeen := lastSeen - {key};
        return;
      }
      fails := fails[key := hits];
      lastSeen := lastSeen[key := now];
    }

    method SweepLocked(now: int, window: int)
      modifies this
      ensures State() == Sweep(old(State()), now, window)
    {
      if |fails| < MAX_GATE_KEYS && now - sweptAt < window {
        return;
      }
      sweptAt := now;
      ghost var was := old(State());
      ghost var gone: set<string> := {};
      assert Swept(was, {}, now) == State();
      var todo := lastSeen.Keys;
      while todo != {}
        invariant Sweeping(was, gone, todo, now, window)
        invariant State() == Swept(was, gone, now)
        decreases |todo|
      {
        var key :| key in todo;
        SweepStep(was, gone, todo, key, now, window);
        todo := todo - {key};
        if now - lastSeen[key] >= window {
          fails := fails - {key};
          lastSeen := lastSeen - {key};
          gone := gone + {key};
        }
      }
      SweepDone(was, gone, now, window);
    }
  }

  /** Midway through a sweep: the stale keys met so far are gone. */
  ghost predicate Sweeping(g: Gate, gone: set<string>, todo: set<string>, now: int, window: int) {
    todo <= Swept(g, gone, now).lastSeen.Keys && gone == Stale(g, now, window) - todo
  }

  /** The gate with some keys already swept. */
  function Swept(g: Gate, gone: set<string>, now: int): Gate {
    Gate(g.fails - gone, g.lastSeen - gone, now)
  }

  lemma SweepStep(g: Gate, gone: set<string>, todo: set<string>, key: string, now: int, window: int)
    requires key in todo && Sweeping(g, gone, todo, now, window)
    ensures Swept(g, gone, now).lastSeen[key] == g.lastSeen[key]
    ensures now - g.lastSeen[key] < window ==> Sweeping(g, gone, todo - {key}, now, window)
    ensures now - g.lastSeen[key] >= window ==>
              && Sweeping(g, gone + {key}, todo - {key}, now, window)
              && Swept(g, gone + {key}, now).fails == Swept(g, gone, now).fails - {key}
              && Swept(g, gone + {key}, now).lastSeen == Swept(g, gone, now).lastSeen - {key}
  {
  }

  lemma SweepDone(g: Gate, gone: set<string>, now: int, window: int)
    requires SweepDue(g, now, window) && Sweeping(g, gone, {}, now, window)
    ensures Swept(g, gone, now) == Sweep(g, now, window)
  {
    assert gone == Stale(g, now, window);
  }

  /** A sweep is due once per window, or with fifty thousand keys or more. It forgets exactly
      the keys that were not seen within the window, and changes nothing else. */
  lemma SweepMeaning(g: Gate, now: int, window: int)
    ensures var after := Sweep(g, now, window);
            var due := |g.fails| >= 50_000 || now - g.sweptAt >= window;
            && after.sweptAt == (if due then now else g.sweptAt)
            && (forall k :: k in after.lastSeen <==> k in g.lastSeen && !(due && now - g.lastSeen[k] >= window))
            && (forall k :: k in after.fails <==>
                  k in g.fails && !(due && k in g.lastSeen && now - g.lastSeen[k] >= window))
            && (forall k :: k in after.lastSeen ==> after.lastSeen[k] == g.lastSeen[k])
            && (forall k :: k in after.fails ==> after.fails[k] == g.fails[k])
  {
  }

  /** A look keeps the hits of its key that are younger than the window, forgets a key that
      has none and marks any other as seen; other keys change by the sweep alone. */
  lemma AllowEffect(g: Gate, key: string, window: int, now: int)
    ensures var swept, after, kept := Sweep(g, now, window), AfterAllow(g, key, window, now), Kept(g, key, window, now);
            && kept == Young(if key in swept.fails then swept.fails[key] else [], now, window)
            && (key in after.fails <==> kept != []) && (key in after.lastSeen <==> kept != [])
            && (kept != [] ==> after.fails[key] == kept && after.lastSeen[key] == now)
            && SameBut(swept, after, key) && after.sweptAt == swept.sweptAt
  {
  }

  ghost predicate SameBut(g: Gate, after: Gate, key: string) {
    && (forall k :: k != key ==> (k in after.fails <==> k in g.fails) && (k in after.lastSeen <==> k in g.lastSeen))
    && (forall k :: k != key && k in g.fails ==> after.fails[k] == g.fails[k])
    && (forall k :: k != key && k in g.lastSeen ==> after.lastSeen[k] == g.lastSeen[k])
  }

  // ----- runs -----

  datatype Call =
    | Allow(key: string, max: int, window: int, now: int)
    | Fail(key: string, now: int)
    | Clear(key: string)

  function Do(g: Gate, c: Call): Gate {
    match c
    case Allow(key, _, window, now) => AfterAllow(g, key, window, now)
    case Fail(key, now) => AfterFail(g, key, now)
    case Clear(key) => AfterClear(g, key)
  }

  function Run(calls: seq<Call>): Gate {
    if calls == [] then Gate(map[], map[], 0)
    else Do(Run(calls[..|calls| - 1]), calls[|calls| - 1])
  }

  /** The clock never runs backwards, and has not passed `now`. */
  predicate Clocked(calls: seq<Call>, now: int) {
    if calls == [] then true
    else
      var c := calls[|calls| - 1];
      if c.Clear? then Clocked(calls[..|calls| - 1], now)
      else c.now <= now && Clocked(calls[..|calls| - 1], c.now)
  }

  /** No earlier call looked through a window narrower than this one. */
  predicate Wide(calls: seq<Call>, window: int) {
    forall i :: 0 <= i < |calls| && calls[i].Allow? ==> window <= calls[i].window
  }

  /** Every failure recorded for the key since it was last cleared. */
  function Failures(calls: seq<Call>, key: string): seq<int> {
    if calls == [] then []
    else
      var c, before := calls[|calls| - 1], Failures(calls[..|calls| - 1], key);
      match c
      case Allow(_, _, _, _) => before
      case Fail(k, now) => if k == key then before + [now] else before
      case Clear(k) => if k == key then [] else before
  }

  /** Both maps hold the same keys, no list is empty, and a key was last seen no
      earlier than any of its failures. */
  ghost predicate WellKept(g: Gate) {
    && g.fails.Keys == g.lastSeen.Keys
    && (forall key :: key in g.fails ==> g.fails[key] != [])
    && (forall key, i :: key in g.fails && 0 <= i < |g.fails[key]| ==> g.fails[key][i] <= g.lastSeen[key])
  }

  lemma YoungStep(hits: seq<int>, at: int, now: int, window: int)
    ensures Young(hits + [at], now, window) ==
            Young(hits, now, window) + (if now - at < window then [at] else [])
  {
  }

  lemma {:induction false} YoungYoung(hits: seq<int>, now: int, window: int, later: int, narrower: int)
    requires now <= later && narrower <= window
    ensures Young(Young(hits, now, window), later, narrower) == Young(hits, later, narrower)
  {
    if hits != [] {
      var front := hits[..|hits| - 1];
      YoungYoung(front, now, window, later, narrower);
      var kept := Young(front, now, window);
      if now - hits[|hits| - 1] < window {
        assert Young(hits, now, window)[..|kept|] == kept;
      } else {
        assert Young(hits, now, window) == kept;
      }
    }
  }

  lemma {:induction false} YoungSubset(hits: seq<int>, now: int, window: int, bound: int)
    requires forall i :: 0 <= i < |hits| ==> hits[i] <= bound
    ensures forall i :: 0 <= i < |Young(hits, now, window)| ==> Young(hits, now, window)[i] <= bound
  {
    if hits != [] {
      YoungSubset(hits[..|hits| - 1], now, window, bound);
    }
  }

  lemma {:induction false} AllOld(hits: seq<int>, now: int, window: int)
    requires forall i :: 0 <= i < |hits| ==> now - hits[i] >= window
    ensures Young(hits, now, window) == []
  {
    if hits != [] {
      AllOld(hits[..|hits| - 1], now, window);
    }
  }

  /** Sweeping only ever removes hits that are too old to count. */
  lemma SweepInvisible(g: Gate, key: string, now: int, window: int, later: int, narrower: int)
    requires WellKept(g) && now <= later && narrower <= window
    ensures WellKept(Sweep(g, now, window))
    ensures Young(Stored(Sweep(g, now, window), key), later, narrower) == Young(Stored(g, key), later, narrower)
  {
    if SweepDue(g, now, window) && key in Stale(g, now, window) && key in g.fails {
      forall i | 0 <= i < |g.fails[key]|
        ensures later - g.fails[key][i] >= narrower
      {
        assert g.fails[key][i] <= g.lastSeen[key];
      }
      AllOld(g.fails[key], later, narrower);
    }
  }

  lemma StoreKeeps(g: Gate, key: string, hits: seq<int>, now: int)
    requires WellKept(g) && forall i :: 0 <= i < |hits| ==> hits[i] <= now
    ensures WellKept(Store(g, key, hits, now))
  {
  }

  ghost predicate NotAfter(g: Gate, now: int) {
    forall key :: key in g.lastSeen ==> g.lastSeen[key] <= now
  }

  /** The stored hits and the whole history agree on what is young enough to count. */
  lemma {:induction false} GateInvariant(calls: seq<Call>, key: string, window: int, now: int)
    requires Clocked(calls, now) && Wide(calls, window)
    ensures WellKept(Run(calls)) && NotAfter(Run(calls), now)
    ensures Young(Stored(Run(calls), key), now, window) == Young(Failures(calls, key), now, window)
    decreases |calls|
  {
    if calls != [] {
      var front, c := calls[..|calls| - 1], calls[|calls| - 1];
      var g := Run(front);
      match c
      case Clear(k) =>
        GateInvariant(front, key, window, now);
      case Fail(k, at) =>
        GateInvariant(front, key, window, at);
        FailCounts(g, k, key, at, Failures(front, key), window);
        YoungYoung(Stored(Do(g, c), key), at, window, now, window);
        YoungYoung(Failures(calls, key), at, window, now, window);
      case Allow(k, _, wide, at) =>
        assert calls[|calls| - 1].window == wide;
        GateInvariant(front, key, window, at);
        AllowInvisible(g, k, key, wide, at, window);
        YoungYoung(Stored(Do(g, c), key), at, window, now, window);
        YoungYoung(Failures(front, key), at, window, now, window);
    }
  }

  /** Fail adds one failure to its own key and leaves the others alone. */
  lemma FailCounts(g: Gate, k: string, key: string, at: int, history: seq<int>, window: int)
    requires WellKept(g) && NotAfter(g, at)
    requires Young(Stored(g, key), at, window) == Young(history, at, window)
    ensures WellKept(AfterFail(g, k, at)) && NotAfter(AfterFail(g, k, at), at)
    ensures Young(Stored(AfterFail(g, k, at), key), at, window)
            == Young(if k == key then history + [at] else history, at, window)
  {
    StoredBound(g, k, at);
    StoreKeeps(g, k, Stored(g, k) + [at], at);
    if k == key {
      YoungStep(Stored(g, k), at, at, window);
      YoungStep(history, at, at, window);
    }
  }

  lemma StoredBound(g: Gate, key: string, now: int)
    requires WellKept(g) && NotAfter(g, now)
    ensures forall i :: 0 <= i < |Stored(g, key)| ==> Stored(g, key)[i] <= now
  {
  }

  /** Allow never changes what counts for any key. */
  lemma AllowInvisible(g: Gate, k: string, key: string, wide: int, at: int, window: int)
    requires WellKept(g) && NotAfter(g, at) && window <= wide
    ensures WellKept(AfterAllow(g, k, wide, at)) && NotAfter(AfterAllow(g, k, wide, at), at)
    ensures Young(Stored(AfterAllow(g, k, wide, at), key), at, window) == Young(Stored(g, key), at, window)
  {
    var swept := Sweep(g, at, wide);
    SweepInvisible(g, key, at, wide, at, window);
    StoredBound(swept, k, at);
    YoungSubset(Stored(swept, k), at, wide, at);
    StoreKeeps(swept, k, Kept(g, k, wide, at), at);
    YoungYoung(Stored(swept, key), at, wide, at, window);
  }

  /** Over every run, Allow answers yes exactly when fewer than max failures since
      the last Clear are younger than the window. */
  lemma AllowIsExact(calls: seq<Call>, key: string, max: int, window: int, now: int)
    requires Clocked(calls, now) && Wide(calls, window)
    ensures |Kept(Run(calls), key, window, now)| < max
            <==> |Young(Failures(calls, key), now, window)| < max
  {
    GateInvariant(calls, key, window, now);
    SweepInvisible(Run(calls), key, now, window, now, window);
  }

  /** The failures younger than the window, by position. */
  function Recent(hits: seq<int>, now: int, window: int): set<int> {
    set i | 0 <= i < |hits| && now - hits[i] < window
  }

  lemma {:induction false} YoungCount(hits: seq<int>, now: int, window: int)
    ensures |Young(hits, now, window)| == |Recent(hits, now, window)|
  {
    if hits != [] {
      var front, last := hits[..|hits| - 1], |hits| - 1;
      YoungCount(front, now, window);
      assert Recent(hits, now, window) == Recent(front, now, window) + (if now - hits[last] < window then {last} else {});
    }
  }

  /** So it counts them: yes, if and only if there are fewer than max. */
  lemma AllowCounts(calls: seq<Call>, key: string, max: int, window: int, now: int)
    requires Clocked(calls, now) && Wide(calls, window)
    ensures |Kept(Run(calls), key, window, now)| < max <==> |Recent(Failures(calls, key), now, window)| < max
  {
    AllowIsExact(calls, key, max, window, now);
    YoungCount(Failures(calls, key), now, window);
  }

  // ----- windows of different width -----

  /** This Allow drops a failure of the key that a look at `now` through `window` would
      count: it sweeps the key away, or filters the key's own list. */
  ghost predicate Forgets(g: Gate, c: Call, key: string, window: int, now: int) {
    && c.Allow? && key in g.lastSeen
    && exists i :: 0 <= i < |Stored(g, key)| && now - Stored(g, key)[i] < window
                   && (|| (SweepDue(g, c.now, c.window) && c.now - g.lastSeen[key] >= c.window)
                       || (c.key == key && c.now - Stored(g, key)[i] >= c.window))
  }

  predicate NotCleared(calls: seq<Call>, i: int, key: string) {
    forall j :: 0 <= i < j < |calls| ==> calls[j] != Clear(key)
  }

  /** Call i drops such a failure, and the key has not been cleared since. */
  ghost predicate ForgetsAt(calls: seq<Call>, i: int, key: string, window: int, now: int) {
    0 <= i < |calls| && NotCleared(calls, i, key) && Forgets(Run(calls[..i]), calls[i], key, window, now)
  }

  /** No Allow since the last Clear of the key has dropped such a failure. */
  ghost predicate NothingForgotten(calls: seq<Call>, key: string, window: int, now: int) {
    forall i :: !ForgetsAt(calls, i, key, window, now)
  }

  lemma {:induction false} SomeYoung(hits: seq<int>, now: int, window: int)
    ensures Young(hits, now, window) != [] <==> exists i :: 0 <= i < |hits| && now - hits[i] < window
  {
    if hits != [] {
      var front := hits[..|hits| - 1];
      SomeYoung(front, now, window);
      if i :| 0 <= i < |front| && now - front[i] < window {
        assert now - hits[i] < window;
      }
      if i :| 0 <= i < |hits| && now - hits[i] < window {
        assert i < |front| ==> now - front[i] < window;
      }
    }
  }

  predicate DroppedAt(hits: seq<int>, i: int, at: int, narrow: int, now: int, window: int) {
    0 <= i < |hits| && now - hits[i] < window && at - hits[i] >= narrow
  }

  lemma YoungAppend(hits: seq<int>, x: int, now: int, window: int)
    ensures Young(hits + [x], now, window) == Young(hits, now, window) + (if now - x < window then [x] else [])
  {
    assert (hits + [x])[..|hits|] == hits;
  }

  ghost predicate SomeDropped(hits: seq<int>, at: int, narrow: int, now: int, window: int) {
    exists i :: DroppedAt(hits, i, at, narrow, now, window)
  }

  lemma DroppedNext(front: seq<int>, x: int, at: int, narrow: int, now: int, window: int)
    ensures SomeDropped(front + [x], at, narrow, now, window) <==>
              SomeDropped(front, at, narrow, now, window) || (now - x < window && at - x >= narrow)
  {
    var hits := front + [x];
    if i :| DroppedAt(front, i, at, narrow, now, window) {
      assert DroppedAt(hits, i, at, narrow, now, window);
    }
    if i :| DroppedAt(hits, i, at, narrow, now, window) {
      assert i < |front| ==> DroppedAt(front, i, at, narrow, now, window);
    }
    if now - x < window && at - x >= narrow {
      assert DroppedAt(hits, |front|, at, narrow, now, window);
    }
  }

  /** Filtering loses exactly the failures that are too old for the filter. */
  lemma {:induction false} FilterLoses(hits: seq<int>, at: int, narrow: int, now: int, window: int)
    ensures var kept, all := Young(Young(hits, at, narrow), now, window), Young(hits, now, window);
            if SomeDropped(hits, at, narrow, now, window) then |kept| < |all| else kept == all
  {
    if hits != [] {
      var front, x := hits[..|hits| - 1], hits[|hits| - 1];
      assert hits == front + [x];
      FilterLoses(front, at, narrow, now, window);
      DroppedNext(front, x, at, narrow, now, window);
      YoungAppend(front, x, now, window);
      var kept := Young(front, at, narrow);
      YoungAppend(front, x, at, narrow);
      YoungAppend(kept, x, now, window);
      if at - x < narrow {
        assert Young(hits, at, narrow) == kept + [x];
      } else {
        assert Young(hits, at, narrow) == kept;
      }
    }
  }

  /** The hits an Allow leaves to a key. */
  lemma StoredAfterAllow(g: Gate, c: Call, key: string)
    requires WellKept(g) && c.Allow?
    ensures var hits, left := Stored(g, key), Stored(Do(g, c), key);
            if key in g.lastSeen && SweepDue(g, c.now, c.window) && c.now - g.lastSeen[key] >= c.window then left == []
            else if c.key == key then left == Young(hits, c.now, c.window)
            else left == hits
  {
  }

  lemma ForgetsOwn(g: Gate, c: Call, key: string, window: int, now: int)
    requires c.Allow? && c.key == key && key in g.lastSeen
    requires !(SweepDue(g, c.now, c.window) && c.now - g.lastSeen[key] >= c.window)
    ensures Forgets(g, c, key, window, now) <==> SomeDropped(Stored(g, key), c.now, c.window, now, window)
  {
    var hits := Stored(g, key);
    if i :| DroppedAt(hits, i, c.now, c.window, now, window) {
      assert Forgets(g, c, key, window, now);
    }
    if Forgets(g, c, key, window, now) {
      var i :| 0 <= i < |hits| && now - hits[i] < window && c.now - hits[i] >= c.window;
      assert DroppedAt(hits, i, c.now, c.window, now, window);
    }
  }

  lemma ForgetsSwept(g: Gate, c: Call, key: string, window: int, now: int)
    requires c.Allow? && key in g.lastSeen
    requires SweepDue(g, c.now, c.window) && c.now - g.lastSeen[key] >= c.window
    ensures Forgets(g, c, key, window, now) <==> Young(Stored(g, key), now, window) != []
  {
    SomeYoung(Stored(g, key), now, window);
  }

  lemma AllowForgets(g: Gate, c: Call, key: string, window: int, now: int)
    requires WellKept(g) && c.Allow?
    ensures var kept, all := Young(Stored(Do(g, c), key), now, window), Young(Stored(g, key), now, window);
            if Forgets(g, c, key, window, now) then |kept| < |all| else kept == all
  {
    StoredAfterAllow(g, c, key);
    if key !in g.lastSeen {
      assert Stored(g, key) == [];
    } else if SweepDue(g, c.now, c.window) && c.now - g.lastSeen[key] >= c.window {
      ForgetsSwept(g, c, key, window, now);
    } else if c.key == key {
      ForgetsOwn(g, c, key, window, now);
      FilterLoses(Stored(g, key), c.now, c.window, now, window);
    }
  }

  lemma {:induction false} RunWellKept(calls: seq<Call>, now: int)
    requires Clocked(calls, now)
    ensures WellKept(Run(calls)) && NotAfter(Run(calls), now)
  {
    if calls != [] {
      var front, c := calls[..|calls| - 1], calls[|calls| - 1];
      RunWellKept(front, if c.Clear? then now else c.now);
      match c
      case Clear(k) =>
      case Fail(k, at) => FailCounts(Run(front), k, k, at, Stored(Run(front), k), 0);
      case Allow(k, _, window, at) => AllowInvisible(Run(front), k, k, window, at, window);
    }
  }

  lemma NotClearedNext(calls: seq<Call>, front: seq<Call>, i: nat, key: string)
    requires i < |front| && calls != [] && front == calls[..|calls| - 1]
    ensures NotCleared(calls, i, key) <==> NotCleared(front, i, key) && calls[|calls| - 1] != Clear(key)
  {
    forall j | i < j < |front|
      ensures front[j] == calls[j]
    {
    }
  }

  lemma ForgetsAtNext(calls: seq<Call>, front: seq<Call>, i: nat, key: string, window: int, now: int)
    requires i < |front| && calls != [] && front == calls[..|calls| - 1]
    ensures ForgetsAt(calls, i, key, window, now) <==>
              ForgetsAt(front, i, key, window, now) && calls[|calls| - 1] != Clear(key)
  {
    NotClearedNext(calls, front, i, key);
    assert front[..i] == calls[..i] && front[i] == calls[i];
  }

  /** Whether something has been forgotten, one call later. */
  lemma ForgottenNext(calls: seq<Call>, front: seq<Call>, c: Call, key: string, window: int, now: int)
    requires calls != [] && front == calls[..|calls| - 1] && c == calls[|calls| - 1]
    ensures NothingForgotten(calls, key, window, now) <==>
              c == Clear(key) || (NothingForgotten(front, key, window, now) && !Forgets(Run(front), c, key, window, now))
  {
    assert NotCleared(calls, |front|, key);
    assert ForgetsAt(calls, |front|, key, window, now) <==> Forgets(Run(front), c, key, window, now);
    if NothingForgotten(calls, key, window, now) && c != Clear(key) {
      forall i
        ensures !ForgetsAt(front, i, key, window, now)
      {
        if 0 <= i < |front| {
          ForgetsAtNext(calls, front, i, key, window, now);
          assert !ForgetsAt(calls, i, key, window, now);
        }
      }
    }
    if c == Clear(key) || (NothingForgotten(front, key, window, now) && !Forgets(Run(front), c, key, window, now)) {
      forall i
        ensures !ForgetsAt(calls, i, key, window, now)
      {
        if 0 <= i < |front| {
          ForgetsAtNext(calls, front, i, key, window, now);
          assert c != Clear(key) ==> !ForgetsAt(front, i, key, window, now);
        }
      }
    }
  }

  /** How much of the history a look still finds. */
  ghost predicate FallsShort(calls: seq<Call>, key: string, window: int, now: int) {
    var kept, all := Young(Stored(Run(calls), key), now, window), Young(Failures(calls, key), now, window);
    if NothingForgotten(calls, key, window, now) then kept == all else |kept| < |all|
  }

  lemma FailAdds(calls: seq<Call>, front: seq<Call>, k: string, at: int, key: string)
    requires calls != [] && front == calls[..|calls| - 1] && calls[|calls| - 1] == Fail(k, at)
    ensures var more := if k == key then [at] else [];
            && Stored(Run(calls), key) == Stored(Run(front), key) + more
            && Failures(calls, key) == Failures(front, key) + more
  {
  }

  lemma FailFallsShort(calls: seq<Call>, front: seq<Call>, k: string, at: int, key: string, window: int, now: int)
    requires calls != [] && front == calls[..|calls| - 1] && calls[|calls| - 1] == Fail(k, at)
    requires FallsShort(front, key, window, now)
    ensures FallsShort(calls, key, window, now)
  {
    ForgottenNext(calls, front, Fail(k, at), key, window, now);
    FailAdds(calls, front, k, at, key);
    if k == key {
      YoungAppend(Stored(Run(front), key), at, now, window);
      YoungAppend(Failures(front, key), at, now, window);
    } else {
      assert Stored(Run(calls), key) == Stored(Run(front), key) && Failures(calls, key) == Failures(front, key);
    }
  }

  lemma AllowFallsShort(calls: seq<Call>, front: seq<Call>, c: Call, key: string, window: int, now: int)
    requires calls != [] && front == calls[..|calls| - 1] && calls[|calls| - 1] == c && c.Allow?
    requires WellKept(Run(front)) && FallsShort(front, key, window, now)
    ensures FallsShort(calls, key, window, now)
  {
    ForgottenNext(calls, front, c, key, window, now);
    AllowForgets(Run(front), c, key, window, now);
  }

  lemma ClearFallsShort(calls: seq<Call>, front: seq<Call>, k: string, key: string, window: int, now: int)
    requires calls != [] && front == calls[..|calls| - 1] && calls[|calls| - 1] == Clear(k)
    requires FallsShort(front, key, window, now)
    ensures FallsShort(calls, key, window, now)
  {
    ForgottenNext(calls, front, Clear(k), key, window, now);
  }

  /** The stored failures fall short of the history exactly when one was forgotten. */
  lemma {:induction false} StoredFallsShort(calls: seq<Call>, key: string, window: int, now: int, clock: int)
    requires Clocked(calls, clock)
    ensures FallsShort(calls, key, window, now)
    decreases |calls|
  {
    if calls != [] {
      var front, c := calls[..|calls| - 1], calls[|calls| - 1];
      var at := if c.Clear? then clock else c.now;
      StoredFallsShort(front, key, window, now, at);
      match c
      case Clear(k) => ClearFallsShort(calls, front, k, key, window, now);
      case Fail(k, when) => FailFallsShort(calls, front, k, when, key, window, now);
      case Allow(_, _, _, _) =>
        RunWellKept(front, at);
        AllowFallsShort(calls, front, c, key, window, now);
    }
  }

  predicate FewerThan(hits: seq<int>, max: int) {
    |hits| < max
  }

  lemma SameAnswers(kept: seq<int>, all: seq<int>)
    ensures (forall max :: FewerThan(kept, max) <==> FewerThan(all, max)) <==> |kept| == |all|
  {
    if |kept| < |all| {
      assert FewerThan(kept, |all|) && !FewerThan(all, |all|);
    } else if |all| < |kept| {
      assert FewerThan(all, |kept|) && !FewerThan(kept, |kept|);
    }
  }

  /** Whatever windows were used before: Allow answers for every limit by the failures
      since the last Clear that are younger than its window, if and only if no earlier
      Allow has dropped one of them. */
  lemma AllowExactIff(calls: seq<Call>, key: string, window: int, now: int)
    requires Clocked(calls, now)
    ensures var kept, all := Kept(Run(calls), key, window, now), Young(Failures(calls, key), now, window);
            (forall max :: FewerThan(kept, max) <==> FewerThan(all, max)) <==>
            NothingForgotten(calls, key, window, now)
  {
    RunWellKept(calls, now);
    KeptIsYoung(Run(calls), key, window, now);
    StoredFallsShort(calls, key, window, now, now);
    SameAnswers(Kept(Run(calls), key, window, now), Young(Failures(calls, key), now, window));
  }

  /** An Allow's own sweep does not change what it counts. */
  lemma KeptIsYoung(g: Gate, key: string, window: int, now: int)
    requires WellKept(g)
    ensures Kept(g, key, window, now) == Young(Stored(g, key), now, window)
  {
    SweepInvisible(g, key, now, window, now, window);
  }

  // ----- the failing side -----

  const FAILED := Gate(map["a" := [0]], map["a" := 0], 0)

  lemma OneFailure()
    ensures Run([Fail("a", 0)]) == FAILED && Failures([Fail("a", 0)], "a") == [0]
  {
    var calls := [Fail("a", 0)];
    assert calls[..0] == [];
    var g := Run(calls[..0]);
    assert g == Gate(map[], map[], 0) && Failures(calls[..0], "a") == [];
    assert Stored(g, "a") + [0] == [0];
    assert Run(calls) == AfterFail(g, "a", 0);
  }

  lemma SweptAway()
    ensures Do(FAILED, Allow("b", 1, 5, 7)).fails == map[]
    ensures Forgets(FAILED, Allow("b", 1, 5, 7), "a", 10, 8)
  {
    assert Stale(FAILED, 7, 5) == {"a"};
    assert Sweep(FAILED, 7, 5).fails == map[];
    var hits := Stored(FAILED, "a");
    assert hits == [0] && 8 - hits[0] < 10 && SweepDue(FAILED, 7, 5) && FAILED.lastSeen["a"] == 0;
  }

  lemma SweptRun()
    ensures var calls := [Fail("a", 0), Allow("b", 1, 5, 7)];
            Run(calls) == Do(FAILED, calls[1]) && Failures(calls, "a") == [0] && ForgetsAt(calls, 1, "a", 10, 8)
  {
    var calls := [Fail("a", 0), Allow("b", 1, 5, 7)];
    assert calls[..1] == [Fail("a", 0)];
    OneFailure();
    SweptAway();
  }

  /** An Allow on another key sweeps a failure away that a wider look would still have
      counted. */
  lemma SweepOfAnotherKeyForgets()
    ensures var calls := [Fail("a", 0), Allow("b", 1, 5, 7)];
            && Clocked(calls, 8) && !NothingForgotten(calls, "a", 10, 8)
            && Kept(Run(calls), "a", 10, 8) == []
            && Young(Failures(calls, "a"), 8, 10) == [0]
  {
    SweptRun();
    SweptAway();
    YoungAppend([], 0, 8, 10);
    assert [] + [0] == [0];
  }
}
