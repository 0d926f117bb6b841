/** When lock numbers of different keys collide, the keys are no longer taken in one
    global order. This is exactly when the transactions in flight can block each other:
    some fingerprints must have key lists that tangle under the lock numbers. */
module Collisions {
  import opened Deadlocks
  import opened Fingerprints
  import opened Interleavings
  import opened LockKeys
  import opened Protocol
  import opened Sequences
  import opened Tables

  /** Nobody in flight can take its next step. */
  ghost predicate Deadlocked(h: LockHash, s: Sys) {
    s.txns != map[] && forall t :: t in s.txns ==> Stuck(h, s, t)
  }

  // ----- tangled key lists -----

  /** A fingerprint of whose sorted keys the first few are held. */
  datatype Waiter = Waiter(fp: Fingerprint, held: nat)

  ghost predicate Waits(w: Waiter) {
    WellFormed(w.fp) && w.fp.sha != "" && w.held < |Keys(w.fp)|
  }

  function Held(w: Waiter): seq<string> {
    if w.held <= |Keys(w.fp)| then Keys(w.fp)[..w.held] else Keys(w.fp)
  }

  /** No lock number is held twice. */
  ghost predicate Disjoint(h: LockHash, a: Waiter, b: Waiter) {
    forall k, l :: k in Held(a) && l in Held(b) ==> h(k) != h(l)
  }

  /** The number a needs next is one that b holds. */
  ghost predicate WaitsFor(h: LockHash, a: Waiter, b: Waiter)
    requires Waits(a)
  {
    exists l :: l in Held(b) && h(l) == h(Keys(a.fp)[a.held])
  }

  ghost predicate AllWait(ws: seq<Waiter>) {
    forall i :: 0 <= i < |ws| ==> Waits(ws[i])
  }

  ghost predicate AllDisjoint(h: LockHash, ws: seq<Waiter>) {
    forall i, j :: 0 <= i < |ws| && 0 <= j < |ws| && i != j ==> Disjoint(h, ws[i], ws[j])
  }

  ghost predicate Blocked(h: LockHash, ws: seq<Waiter>, i: nat)
    requires AllWait(ws) && i < |ws|
  {
    exists j :: 0 <= j < |ws| && j != i && WaitsFor(h, ws[i], ws[j])
  }

  /** Each holds a part of its keys and needs a number that another one holds. */
  ghost predicate Tangle(h: LockHash, ws: seq<Waiter>) {
    ws != [] && AllWait(ws) && AllDisjoint(h, ws) && forall i :: 0 <= i < |ws| ==> Blocked(h, ws, i)
  }

  // ----- a deadlock is a tangle -----

  /** Waits for document rows alone never close a circle. */
  lemma AllAtKeys(h: LockHash, s: Sys, t: TxnId)
    requires SysOk(h, s) && Deadlocked(h, s) && t in s.txns
    ensures s.txns[t].stage == TakingKeys && AtLock(h, s, t)
  {
    StuckAtLock(h, s, t);
    if s.txns[t].stage != TakingKeys {
      var others := set u: TxnId | u in s.txns && s.txns[u].stage != TakingKeys;
      assert t in others;
      var top := Highest(s, others);
      StuckAtLock(h, s, top);
      var u := DocBlocker(h, s, top);
      assert u in others;
      StuckAtLock(h, s, u);
    }
  }

  function AsWaiter(x: Txn): Waiter {
    Waiter(x.fp, x.keysHeld)
  }

  lemma HeldSame(x: Txn)
    requires KeysPart(x)
    ensures Held(AsWaiter(x)) == HeldKeys(x)
  {
  }

  ghost function Waiters(s: Sys, ids: seq<TxnId>): seq<Waiter>
    requires forall i :: 0 <= i < |ids| ==> ids[i] in s.txns
  {
    seq(|ids|, i requires 0 <= i < |ids| => AsWaiter(s.txns[ids[i]]))
  }

  lemma DisjointHoldings(h: LockHash, s: Sys, t: TxnId, u: TxnId)
    requires KeysExclusive(h, s) && t in s.txns && u in s.txns && t != u
    requires KeysPart(s.txns[t]) && KeysPart(s.txns[u])
    ensures Disjoint(h, AsWaiter(s.txns[t]), AsWaiter(s.txns[u]))
  {
    HeldSame(s.txns[t]);
    HeldSame(s.txns[u]);
    forall k, l | k in HeldKeys(s.txns[t]) && l in HeldKeys(s.txns[u])
      ensures h(k) != h(l)
    {
      assert KeyFree(h, s, t, k);
    }
  }

  lemma WaitsForHolder(h: LockHash, s: Sys, t: TxnId) returns (u: TxnId)
    requires t in s.txns && AtLock(h, s, t) && s.txns[t].stage == TakingKeys
    requires forall v: TxnId :: v in s.txns ==> KeysPart(s.txns[v])
    ensures Waits(AsWaiter(s.txns[t]))
    ensures u in s.txns && u != t && WaitsFor(h, AsWaiter(s.txns[t]), AsWaiter(s.txns[u]))
  {
    var k: string;
    u, k := KeyHolder(h, s, t, s.txns[t].keys[s.txns[t].keysHeld]);
    HeldSame(s.txns[u]);
    assert k in Held(AsWaiter(s.txns[u]));
  }

  /** Every transaction waits for a key. */
  ghost predicate AllStuckAtKeys(h: LockHash, s: Sys) {
    && (forall t: TxnId :: t in s.txns ==> KeysPart(s.txns[t]))
    && (forall t: TxnId :: t in s.txns ==> AtLock(h, s, t) && s.txns[t].stage == TakingKeys)
  }

  ghost predicate Lists(ids: seq<TxnId>, s: Sys) {
    (forall i :: 0 <= i < |ids| ==> ids[i] in s.txns) && (forall t :: t in s.txns ==> t in ids) && Ascending(ids)
  }

  lemma WaiterBlocked(h: LockHash, s: Sys, ids: seq<TxnId>, i: nat)
    requires AllStuckAtKeys(h, s) && Lists(ids, s) && i < |ids| && AllWait(Waiters(s, ids))
    ensures Blocked(h, Waiters(s, ids), i)
  {
    var u := WaitsForHolder(h, s, ids[i]);
    var j :| 0 <= j < |ids| && ids[j] == u;
    assert WaitsFor(h, Waiters(s, ids)[i], Waiters(s, ids)[j]);
  }

  lemma WaiterWaits(h: LockHash, s: Sys, ids: seq<TxnId>)
    requires AllStuckAtKeys(h, s) && Lists(ids, s)
    ensures AllWait(Waiters(s, ids))
  {
    forall i | 0 <= i < |ids|
      ensures Waits(Waiters(s, ids)[i])
    {
      var u := WaitsForHolder(h, s, ids[i]);
    }
  }

  lemma WaitersDisjoint(h: LockHash, s: Sys, ids: seq<TxnId>)
    requires AllStuckAtKeys(h, s) && KeysExclusive(h, s) && Lists(ids, s)
    ensures AllDisjoint(h, Waiters(s, ids))
  {
    forall i, j | 0 <= i < |ids| && 0 <= j < |ids| && i != j
      ensures Disjoint(h, Waiters(s, ids)[i], Waiters(s, ids)[j])
    {
      assert ids[i] != ids[j];
      DisjointHoldings(h, s, ids[i], ids[j]);
    }
  }

  lemma StuckIsTangle(h: LockHash, s: Sys, ids: seq<TxnId>)
    requires AllStuckAtKeys(h, s) && KeysExclusive(h, s) && Lists(ids, s) && ids != []
    ensures Tangle(h, Waiters(s, ids))
  {
    WaiterWaits(h, s, ids);
    WaitersDisjoint(h, s, ids);
    forall i | 0 <= i < |ids|
      ensures Blocked(h, Waiters(s, ids), i)
    {
      WaiterBlocked(h, s, ids, i);
    }
  }

  lemma DeadlockedAtKeys(h: LockHash, s: Sys)
    requires SysOk(h, s) && Deadlocked(h, s)
    ensures AllStuckAtKeys(h, s)
  {
    forall t: TxnId | t in s.txns
      ensures AtLock(h, s, t) && s.txns[t].stage == TakingKeys
    {
      AllAtKeys(h, s, t);
    }
  }

  lemma DeadlockIsTangle(h: LockHash, events: seq<Event>) returns (ws: seq<Waiter>)
    requires Deadlocked(h, Exec(h, events))
    ensures Tangle(h, ws)
  {
    var s := Exec(h, events);
    ExecOk(h, events);
    DeadlockedAtKeys(h, s);
    ws := TangleOf(h, s);
  }

  lemma TangleOf(h: LockHash, s: Sys) returns (ws: seq<Waiter>)
    requires AllStuckAtKeys(h, s) && KeysExclusive(h, s) && s.txns != map[]
    ensures Tangle(h, ws)
  {
    var ids := SortedIds(s.txns.Keys);
    assert forall i :: 0 <= i < |ids| ==> ids[i] in ids;
    var t :| t in s.txns;
    assert t in ids;
    StuckIsTangle(h, s, ids);
    ws := Waiters(s, ids);
  }

  // ----- a tangle can be reached -----

  function Started(w: Waiter, held: nat): Txn {
    Txn(0, w.fp, TakingKeys, Keys(w.fp), held, 0, map[], [], 0, map[])
  }

  /** The first i have begun one after the other and taken the keys they are to hold. */
  function Gathered(ws: seq<Waiter>, i: nat): map<TxnId, Txn>
    requires i <= |ws|
  {
    map t: TxnId | t < i :: Started(ws[t], ws[t].held)
  }

  ghost predicate Reachable(h: LockHash, s: Sys) {
    exists events :: Exec(h, events) == s
  }

  lemma ReachEmpty(h: LockHash)
    ensures Reachable(h, Sys(EMPTY, map[], {}))
  {
    assert Exec(h, []) == Sys(EMPTY, map[], {});
  }

  lemma ReachNext(h: LockHash, s: Sys, e: Event)
    requires Reachable(h, s) && Enabled(h, s, e)
    ensures Reachable(h, Step(h, s, e))
  {
    var events :| Exec(h, events) == s;
    assert (events + [e])[..|events|] == events;
    assert Exec(h, events + [e]) == Step(h, s, e);
  }

  lemma BeginNext(h: LockHash, txns: map<TxnId, Txn>, t: TxnId, w: Waiter)
    requires Reachable(h, Sys(EMPTY, txns, {})) && t !in txns && Waits(w)
    ensures Reachable(h, Sys(EMPTY, txns[t := Started(w, 0)], {}))
  {
    ReachNext(h, Sys(EMPTY, txns, {}), Begin(t, 0, w.fp));
  }

  lemma TakeNext(h: LockHash, txns: map<TxnId, Txn>, t: TxnId, w: Waiter, n: nat)
    requires Reachable(h, Sys(EMPTY, txns[t := Started(w, n)], {})) && n < |Keys(w.fp)|
    requires KeyFree(h, Sys(EMPTY, txns[t := Started(w, n)], {}), t, Keys(w.fp)[n])
    ensures Reachable(h, Sys(EMPTY, txns[t := Started(w, n + 1)], {}))
  {
    var s := Sys(EMPTY, txns[t := Started(w, n)], {});
    ReachNext(h, s, TakeKey(t));
    assert s.txns[t := Started(w, n + 1)] == txns[t := Started(w, n + 1)];
  }

  lemma NextKeyFree(h: LockHash, ws: seq<Waiter>, i: nat, n: nat)
    requires AllWait(ws) && AllDisjoint(h, ws) && i < |ws| && n < ws[i].held
    ensures KeyFree(h, Sys(EMPTY, Gathered(ws, i)[i := Started(ws[i], n)], {}), i, Keys(ws[i].fp)[n])
  {
    var key := Keys(ws[i].fp)[n];
    assert key == Held(ws[i])[n];
    var txns := Gathered(ws, i)[i := Started(ws[i], n)];
    forall u: TxnId, k: string | u in txns && u != i && k in HeldKeys(txns[u])
      ensures h(k) != h(key)
    {
      assert HeldKeys(txns[u]) == Held(ws[u]);
      assert Disjoint(h, ws[u], ws[i]);
    }
  }

  /** Started on top of these transactions, t finds the keys it is to hold free. */
  ghost predicate FindsFree(h: LockHash, txns: map<TxnId, Txn>, t: TxnId, w: Waiter) {
    Waits(w) && forall n: nat :: n < w.held ==>
                                   KeyFree(h, Sys(EMPTY, txns[t := Started(w, n)], {}), t, Keys(w.fp)[n])
  }

  lemma {:induction false} ReachTaking(h: LockHash, txns: map<TxnId, Txn>, t: TxnId, w: Waiter, n: nat)
    requires t !in txns && FindsFree(h, txns, t, w) && n <= w.held
    requires Reachable(h, Sys(EMPTY, txns, {}))
    ensures Reachable(h, Sys(EMPTY, txns[t := Started(w, n)], {}))
    decreases n
  {
    if n == 0 {
      BeginNext(h, txns, t, w);
    } else {
      ReachTaking(h, txns, t, w, n - 1);
      TakeNext(h, txns, t, w, n - 1);
    }
  }

  lemma NextFindsFree(h: LockHash, ws: seq<Waiter>, i: nat)
    requires AllWait(ws) && AllDisjoint(h, ws) && i < |ws|
    ensures FindsFree(h, Gathered(ws, i), i, ws[i])
  {
    forall n: nat | n < ws[i].held
      ensures KeyFree(h, Sys(EMPTY, Gathered(ws, i)[i := Started(ws[i], n)], {}), i, Keys(ws[i].fp)[n])
    {
      NextKeyFree(h, ws, i, n);
    }
  }

  ghost predicate AllFindFree(h: LockHash, ws: seq<Waiter>) {
    forall i: nat :: i < |ws| ==> FindsFree(h, Gathered(ws, i), i, ws[i])
  }

  lemma EachFindsFree(h: LockHash, ws: seq<Waiter>)
    requires AllWait(ws) && AllDisjoint(h, ws)
    ensures AllFindFree(h, ws)
  {
    forall i: nat | i < |ws|
      ensures FindsFree(h, Gathered(ws, i), i, ws[i])
    {
      NextFindsFree(h, ws, i);
    }
  }

  lemma GatherOne(h: LockHash, ws: seq<Waiter>, i: nat)
    requires i < |ws| && FindsFree(h, Gathered(ws, i), i, ws[i])
    requires Reachable(h, Sys(EMPTY, Gathered(ws, i), {}))
    ensures Reachable(h, Sys(EMPTY, Gathered(ws, i + 1), {}))
  {
    ReachTaking(h, Gathered(ws, i), i, ws[i], ws[i].held);
    GatheredNext(ws, i);
  }

  lemma {:induction false} ReachGathered(h: LockHash, ws: seq<Waiter>, i: nat)
    requires AllFindFree(h, ws) && i <= |ws|
    ensures Reachable(h, Sys(EMPTY, Gathered(ws, i), {}))
  {
    if i == 0 {
      ReachEmpty(h);
      assert Gathered(ws, 0) == map[];
    } else {
      ReachGathered(h, ws, i - 1);
      GatherOne(h, ws, i - 1);
    }
  }

  lemma GatheredNext(ws: seq<Waiter>, i: nat)
    requires i < |ws|
    ensures Gathered(ws, i + 1) == Gathered(ws, i)[i := Started(ws[i], ws[i].held)]
  {
  }

  lemma BlockedIsStuck(h: LockHash, ws: seq<Waiter>, t: TxnId)
    requires AllWait(ws) && t < |ws| && Blocked(h, ws, t)
    ensures Stuck(h, Sys(EMPTY, Gathered(ws, |ws|), {}), t)
  {
    var s := Sys(EMPTY, Gathered(ws, |ws|), {});
    var j :| 0 <= j < |ws| && j != t && WaitsFor(h, ws[t], ws[j]);
    assert HeldKeys(Started(ws[j], ws[j].held)) == Held(ws[j]);
    NotKeyFree(h, s, t, j, ws[t], ws[j]);
  }

  lemma NotKeyFree(h: LockHash, s: Sys, t: TxnId, u: TxnId, a: Waiter, b: Waiter)
    requires u in s.txns && u != t && Waits(a) && WaitsFor(h, a, b) && HeldKeys(s.txns[u]) == Held(b)
    ensures !KeyFree(h, s, t, Keys(a.fp)[a.held])
  {
  }

  lemma AllBlockedDeadlock(h: LockHash, ws: seq<Waiter>)
    requires Tangle(h, ws)
    ensures Deadlocked(h, Sys(EMPTY, Gathered(ws, |ws|), {}))
  {
    forall t: TxnId | t < |ws|
      ensures Stuck(h, Sys(EMPTY, Gathered(ws, |ws|), {}), t)
    {
      BlockedIsStuck(h, ws, t);
    }
    assert 0 in Gathered(ws, |ws|);
  }

  lemma TangleDeadlocks(h: LockHash, ws: seq<Waiter>)
    requires Tangle(h, ws)
    ensures CanDeadlock(h)
  {
    EachFindsFree(h, ws);
    ReachGathered(h, ws, |ws|);
    AllBlockedDeadlock(h, ws);
    var events :| Exec(h, events) == Sys(EMPTY, Gathered(ws, |ws|), {});
    assert Deadlocked(h, Exec(h, events));
  }

  ghost predicate CanDeadlock(h: LockHash) {
    exists events :: Deadlocked(h, Exec(h, events))
  }

  ghost predicate CanTangle(h: LockHash) {
    exists ws :: Tangle(h, ws)
  }

  /** For every numbering of the locks: a state in which nobody can move is reachable if
      and only if the key lists of some fingerprints tangle under it. */
  lemma DeadlockIffTangle(h: LockHash)
    ensures CanDeadlock(h) <==> CanTangle(h)
  {
    if CanDeadlock(h) {
      var events :| Deadlocked(h, Exec(h, events));
      var ws := DeadlockIsTangle(h, events);
    }
    if CanTangle(h) {
      var ws :| Tangle(h, ws);
      TangleDeadlocks(h, ws);
    }
  }

  /** Two fingerprints are enough: one collision each way between the key that one needs
      next and a key that the other one holds. */
  lemma CrossedKeysDeadlock(h: LockHash, a: Fingerprint, p: nat, b: Fingerprint, q: nat, k: nat, l: nat)
    requires Waits(Waiter(a, p)) && Waits(Waiter(b, q)) && Disjoint(h, Waiter(a, p), Waiter(b, q))
    requires k < q && h(Keys(b)[k]) == h(Keys(a)[p])
    requires l < p && h(Keys(a)[l]) == h(Keys(b)[q])
    ensures CanDeadlock(h)
  {
    var ws := [Waiter(a, p), Waiter(b, q)];
    assert Keys(b)[k] == Held(ws[1])[k] && Keys(a)[l] == Held(ws[0])[l];
    assert WaitsFor(h, ws[0], ws[1]) && WaitsFor(h, ws[1], ws[0]);
    assert Disjoint(h, ws[1], ws[0]);
    TangleDeadlocks(h, ws);
  }
}
