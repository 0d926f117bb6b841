/** The reference-counted table of per-path locks. The critical sections of lockCache
    are methods of a class; their interleavings are a step system over the same table. */
module CacheLocks {
  import opened Sequences

  /** The live entries and their reference counts. */
  datatype Table<!L(==)> = Table(entry: map<string, L>, refs: map<L, int>)

  /** One more user of the entry for path, which is m. */
  function Entered<L>(t: Table<L>, path: string, m: L): Table<L>
  {
    var n := if m in t.refs then t.refs[m] else 0;
    Table(t.entry[path := m], t.refs[m := n + 1])
  }

  /** One user fewer; the last one takes the entry away. */
  function Left<L>(t: Table<L>, path: string, m: L): Table<L>
    requires m in t.refs
  {
    if t.refs[m] - 1 == 0 then Table(t.entry - {path}, t.refs - {m})
    else t.(refs := t.refs[m := t.refs[m] - 1])
  }

  class CacheLock {
    var refs: int

    constructor ()
      ensures refs == 0
    {
      refs := 0;
    }
  }

  class R2 {
    var cacheLocks: map<string, CacheLock>

    ghost predicate Valid()
      reads this
    {
      forall p, q :: p in cacheLocks && q in cacheLocks && p != q ==> cacheLocks[p] != cacheLocks[q]
    }

    ghost function View(): Table<CacheLock>
      reads this, cacheLocks.Values
    {
      Table(cacheLocks, map m | m in cacheLocks.Values :: m.refs)
    }

    /** The section before m.mu.Lock(): finds or creates the entry and counts the caller. */
    method Enter(path: string) returns (m: CacheLock)
      requires Valid()
      modifies this, cacheLocks.Values
      ensures Valid()
      ensures if path in old(cacheLocks) then m == old(cacheLocks)[path] else fresh(m)
      ensures View() == Entered(old(View()), path, m)
    {
      if path in cacheLocks {
        m := cacheLocks[path];
      } else {
        m := new CacheLock();
        cacheLocks := cacheLocks[path := m];
        assert cacheLocks.Values == old(cacheLocks).Values + {m} by {
          assert path in cacheLocks && cacheLocks[path] == m;
          forall v | v in old(cacheLocks).Values
            ensures v in cacheLocks.Values
          {
            var p :| p in old(cacheLocks) && old(cacheLocks)[p] == v;
            assert p in cacheLocks && cacheLocks[p] == v;
          }
        }
      }
      m.refs := m.refs + 1;
    }

    /** The section after m.mu.Unlock(): uncounts the caller and drops an unused entry. */
    method Leave(path: string, m: CacheLock)
      requires Valid()
      requires path in cacheLocks && cacheLocks[path] == m
      modifies this, m
      ensures Valid()
      ensures View() == Left(old(View()), path, m)
    {
      m.refs := m.refs - 1;
      if m.refs == 0 {
        cacheLocks := cacheLocks - {path};
        assert cacheLocks.Values == old(cacheLocks).Values - {m} by {
          forall v | v in old(cacheLocks).Values && v != m
            ensures v in cacheLocks.Values
          {
            var p :| p in old(cacheLocks) && old(cacheLocks)[p] == v;
            assert p in cacheLocks && cacheLocks[p] == v;
          }
        }
      }
    }
  }

  // ----- interleavings -----

  /** A client is one call of lockCache together with the unlock function it returned. */
  type Client = nat
  type Lock = nat

  /** Between the two sections a client waits for the mutex, holds it, or has just
      released it. */
  datatype Stage = Waiting | Holding | Leaving

  datatype Visit = Visit(path: string, lock: Lock, stage: Stage)

  /** `owner` says which client holds each locked mutex; `next` is a lock not yet created. */
  datatype System = System(table: Table<Lock>, owner: map<Lock, Client>, visits: map<Client, Visit>, next: Lock)

  datatype Step =
    | Enter(c: Client, path: string)
    | Acquire(c: Client)
    | Release(c: Client)
    | Leave(c: Client)

  predicate Enabled(s: System, step: Step) {
    match step
    case Enter(c, path) => c !in s.visits
    case Acquire(c) => c in s.visits && s.visits[c].stage == Waiting && s.visits[c].lock !in s.owner
    case Release(c) => c in s.visits && s.visits[c].stage == Holding
    case Leave(c) => c in s.visits && s.visits[c].stage == Leaving && s.visits[c].lock in s.table.refs
  }

  function Do(s: System, step: Step): System
    requires Enabled(s, step)
  {
    match step
    case Enter(c, path) =>
      var m := if path in s.table.entry then s.table.entry[path] else s.next;
      s.(table := Entered(s.table, path, m),
         visits := s.visits[c := Visit(path, m, Waiting)],
         next := if path in s.table.entry then s.next else s.next + 1)
    case Acquire(c) =>
      s.(owner := s.owner[s.visits[c].lock := c], visits := s.visits[c := s.visits[c].(stage := Holding)])
    case Release(c) =>
      s.(owner := s.owner - {s.visits[c].lock}, visits := s.visits[c := s.visits[c].(stage := Leaving)])
    case Leave(c) =>
      s.(table := Left(s.table, s.visits[c].path, s.visits[c].lock), visits := s.visits - {c})
  }

  function Initial(): System {
    System(Table(map[], map[]), map[], map[], 0)
  }

  /** The state after some steps; a step that is not enabled does not happen. */
  function Run(steps: seq<Step>): System {
    if steps == [] then Initial()
    else
      var s := Run(steps[..|steps| - 1]);
      if Enabled(s, steps[|steps| - 1]) then Do(s, steps[|steps| - 1]) else s
  }

  function Users(s: System, path: string): set<Client> {
    set c | c in s.visits && s.visits[c].path == path
  }

  /** Every visit uses the one live lock of its path. */
  ghost predicate VisitsOk(s: System) {
    forall c :: c in s.visits ==> s.visits[c].path in s.table.entry
                                  && s.table.entry[s.visits[c].path] == s.visits[c].lock
  }

  /** Different paths have different locks, all of them created. */
  ghost predicate LocksOk(s: System) {
    && (forall p :: p in s.table.entry ==> s.table.entry[p] in s.table.refs)
    && (forall m :: m in s.table.refs ==> m < s.next)
    && (forall p, q :: p in s.table.entry && q in s.table.entry && s.table.entry[p] == s.table.entry[q] ==> p == q)
  }

  /** Counts are numbers of users, and no entry is unused. */
  ghost predicate CountsOk(s: System)
    requires LocksOk(s)
  {
    forall p :: p in s.table.entry ==> s.table.refs[s.table.entry[p]] == |Users(s, p)| > 0
  }

  /** The owner of a mutex is the client holding it. */
  ghost predicate OwnersOk(s: System) {
    && (forall m :: m in s.owner ==> s.owner[m] in s.visits && s.visits[s.owner[m]].lock == m
                                     && s.visits[s.owner[m]].stage == Holding)
    && (forall c :: c in s.visits && s.visits[c].stage == Holding ==>
                      s.visits[c].lock in s.owner && s.owner[s.visits[c].lock] == c)
  }

  ghost predicate Inv(s: System) {
    VisitsOk(s) && LocksOk(s) && CountsOk(s) && OwnersOk(s)
  }

  lemma EnterCounts(s: System, c: Client, path: string)
    requires Inv(s) && Enabled(s, Enter(c, path))
    requires LocksOk(Do(s, Enter(c, path)))
    ensures CountsOk(Do(s, Enter(c, path)))
  {
    var s' := Do(s, Enter(c, path));
    forall p | p in s'.table.entry
      ensures s'.table.refs[s'.table.entry[p]] == |Users(s', p)| > 0
    {
      if p == path {
        assert Users(s', p) == Users(s, p) + {c};
        AddOne(Users(s, p), c);
        if path !in s.table.entry {
          assert Users(s, path) == {};
        }
      } else {
        assert Users(s', p) == Users(s, p);
      }
    }
  }

  lemma EnterKeeps(s: System, c: Client, path: string)
    requires Inv(s) && Enabled(s, Enter(c, path))
    ensures Inv(Do(s, Enter(c, path)))
  {
    EnterCounts(s, c, path);
  }

  /** Moving a client between stages changes neither the table nor any user count. */
  lemma StageKeeps(s: System, c: Client, stage: Stage, owner: map<Lock, Client>)
    requires Inv(s) && c in s.visits
    ensures var s' := s.(owner := owner, visits := s.visits[c := s.visits[c].(stage := stage)]);
            VisitsOk(s') && LocksOk(s') && CountsOk(s')
  {
    var s' := s.(owner := owner, visits := s.visits[c := s.visits[c].(stage := stage)]);
    forall p | p in s'.table.entry
      ensures s'.table.refs[s'.table.entry[p]] == |Users(s', p)| > 0
    {
      assert Users(s', p) == Users(s, p);
    }
  }

  lemma AcquireOwners(s: System, c: Client)
    requires OwnersOk(s) && Enabled(s, Acquire(c))
    ensures OwnersOk(Do(s, Acquire(c)))
  {
    var s', m := Do(s, Acquire(c)), s.visits[c].lock;
    forall d | d in s'.visits && s'.visits[d].stage == Holding
      ensures s'.visits[d].lock in s'.owner && s'.owner[s'.visits[d].lock] == d
    {
      assert d != c ==> s'.visits[d] == s.visits[d] && s.visits[d].lock in s.owner && s.visits[d].lock != m;
    }
    forall n | n in s'.owner
      ensures s'.owner[n] in s'.visits && s'.visits[s'.owner[n]].lock == n
              && s'.visits[s'.owner[n]].stage == Holding
    {
      assert n != m ==> s'.owner[n] == s.owner[n] != c;
    }
  }

  lemma AcquireKeeps(s: System, c: Client)
    requires Inv(s) && Enabled(s, Acquire(c))
    ensures Inv(Do(s, Acquire(c)))
  {
    StageKeeps(s, c, Holding, s.owner[s.visits[c].lock := c]);
    AcquireOwners(s, c);
  }

  lemma ReleaseKeeps(s: System, c: Client)
    requires Inv(s) && Enabled(s, Release(c))
    ensures Inv(Do(s, Release(c)))
  {
    var s' := Do(s, Release(c));
    StageKeeps(s, c, Leaving, s.owner - {s.visits[c].lock});
    assert OwnersOk(s') by {
      var m := s.visits[c].lock;
      assert s.owner[m] == c;
      forall d | d in s'.visits && s'.visits[d].stage == Holding
        ensures s'.visits[d].lock in s'.owner && s'.owner[s'.visits[d].lock] == d
      {
        assert d != c && s.visits[d] == s'.visits[d];
        assert s.owner[s.visits[d].lock] == d;
      }
      forall n | n in s'.owner
        ensures s'.owner[n] in s'.visits && s'.visits[s'.owner[n]].lock == n
                && s'.visits[s'.owner[n]].stage == Holding
      {
        assert s'.owner[n] == s.owner[n] != c;
      }
    }
  }

  lemma LeaveUsers(s: System, c: Client, p: string)
    requires Enabled(s, Leave(c))
    ensures Users(Do(s, Leave(c)), p) == Users(s, p) - (if p == s.visits[c].path then {c} else {})
  {
  }

  /** The table after the last section: the path has one user less, or is gone with its
      only user; the other paths keep their entries. */
  lemma LeaveTable(s: System, c: Client, p: string)
    requires VisitsOk(s) && LocksOk(s) && Enabled(s, Leave(c)) && p in Do(s, Leave(c)).table.entry
    ensures var after, m := Do(s, Leave(c)).table, s.table.entry;
            && p in m && after.entry[p] == m[p] && m[p] in after.refs
            && after.refs[m[p]] == s.table.refs[m[p]] - (if p == s.visits[c].path then 1 else 0)
            && (p == s.visits[c].path ==> after.refs[m[p]] != 0)
  {
  }

  lemma LeaveCounts(s: System, c: Client)
    requires Inv(s) && Enabled(s, Leave(c))
    requires LocksOk(Do(s, Leave(c)))
    ensures CountsOk(Do(s, Leave(c)))
  {
    var s' := Do(s, Leave(c));
    forall p | p in s'.table.entry
      ensures s'.table.refs[s'.table.entry[p]] == |Users(s', p)| > 0
    {
      LeaveTable(s, c, p);
      LeaveUsers(s, c, p);
      if p == s.visits[c].path {
        RemoveOne(Users(s, p), c);
      }
    }
  }

  lemma LeaveKeeps(s: System, c: Client)
    requires Inv(s) && Enabled(s, Leave(c))
    ensures Inv(Do(s, Leave(c)))
  {
    var s' := Do(s, Leave(c));
    var path := s.visits[c].path;
    LeaveUsers(s, c, path);
    RemoveOne(Users(s, path), c);
    forall d | d in s'.visits
      ensures s'.visits[d].path in s'.table.entry
              && s'.table.entry[s'.visits[d].path] == s'.visits[d].lock
    {
      if s.visits[d].path == path {
        assert d in Users(s', path);
      }
    }
    LeaveCounts(s, c);
  }

  lemma {:induction false} RunInv(steps: seq<Step>)
    ensures Inv(Run(steps))
  {
    if steps != [] {
      var front := steps[..|steps| - 1];
      RunInv(front);
      var s, step := Run(front), steps[|steps| - 1];
      if Enabled(s, step) {
        match step
        case Enter(c, path) => EnterKeeps(s, c, path);
        case Acquire(c) => AcquireKeeps(s, c);
        case Release(c) => ReleaseKeeps(s, c);
        case Leave(c) => LeaveKeeps(s, c);
      }
    }
  }

  /** In every interleaving at most one client holds a path. */
  lemma MutualExclusion(steps: seq<Step>, c: Client, d: Client)
    requires var s := Run(steps);
             && c in s.visits && d in s.visits
             && s.visits[c].stage == s.visits[d].stage == Holding
             && s.visits[c].path == s.visits[d].path
    ensures c == d
  {
    RunInv(steps);
  }

  /** An entry exists exactly while some client is between lookup and release, and it
      counts those clients; with no client the table is empty. */
  lemma TableIsExact(steps: seq<Step>, path: string)
    ensures var s := Run(steps);
            path in s.table.entry <==> exists c :: c in s.visits && s.visits[c].path == path
    ensures var s := Run(steps);
            path in s.table.entry ==> s.table.entry[path] in s.table.refs
                                      && s.table.refs[s.table.entry[path]] == |Users(s, path)|
    ensures Run(steps).visits == map[] ==> Run(steps).table.entry == map[]
  {
    RunInv(steps);
    var s := Run(steps);
    forall p | p in s.table.entry
      ensures exists c :: c in s.visits && s.visits[c].path == p
    {
      assert Users(s, p) != {};
      var c :| c in Users(s, p);
    }
  }

  /** All clients of one path share one lock. */
  lemma OneLockPerPath(steps: seq<Step>, c: Client, d: Client)
    requires var s := Run(steps);
             c in s.visits && d in s.visits
    ensures var s := Run(steps);
            s.visits[c].path == s.visits[d].path <==> s.visits[c].lock == s.visits[d].lock
  {
    RunInv(steps);
  }

  /** No client is ever stuck for good: while a client is inside, some client inside on
      the same path can move. */
  lemma Progress(steps: seq<Step>, c: Client)
    requires c in Run(steps).visits
    ensures exists d, step :: d in Users(Run(steps), Run(steps).visits[c].path)
                              && step in [Acquire(d), Release(d), Leave(d)] && Enabled(Run(steps), step)
  {
    RunInv(steps);
    var s := Run(steps);
    var m := s.visits[c].lock;
    if m in s.owner {
      var d := s.owner[m];
      assert s.table.entry[s.visits[d].path] == s.table.entry[s.visits[c].path];
      assert d in Users(s, s.visits[c].path) && Release(d) in [Acquire(d), Release(d), Leave(d)];
      assert Enabled(s, Release(d));
    } else if s.visits[c].stage == Waiting {
      assert c in Users(s, s.visits[c].path) && Acquire(c) in [Acquire(c), Release(c), Leave(c)];
      assert Enabled(s, Acquire(c));
    } else {
      assert s.visits[c].stage == Leaving;
      assert c in Users(s, s.visits[c].path) && Leave(c) in [Acquire(c), Release(c), Leave(c)];
      assert Enabled(s, Leave(c));
    }
  }
}
