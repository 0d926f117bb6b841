/** Replacing title similarities as concurrent transactions: each takes the advisory locks
    of its source and of all sources it hits in ascending order, then touches its source
    row, deletes the old similarities and writes the hits one by one. Whatever else
    happens in between, a commit has the effect of the atomic transaction. */
module SimilarLocks {
  import opened Invariants
  import opened Options
  import opened Preservation
  import opened Sequences
  import opened Tables

  /** The advisory lock number of a source. */
  type LockHash = Id -> int

  datatype Stage = TakingLocks | Deleting | Writing

  /** A transaction in flight: the locks it holds, how many hits it has dealt with, the
      rows its delete removed and the rows it has written. */
  datatype Writer = Writer(
    source: Id, hits: seq<SimilarHit>, stage: Stage, locks: seq<Id>, held: nat,
    next: nat, deleted: set<(Id, Id)>, written: map<(Id, Id), real>)

  type WriterId = nat

  /** The committed similarities and the existing sources. */
  datatype Sys = Sys(living: set<Id>, similar: map<(Id, Id), real>, writers: map<WriterId, Writer>)

  datatype Event =
    | Begin(t: WriterId, source: Id, hits: seq<SimilarHit>)
    | Take(t: WriterId)
    | Touch(t: WriterId)
    | Clean(t: WriterId)
    | Write(t: WriterId)
    | Commit(t: WriterId)
    | Abort(t: WriterId)
    | Add(ids: set<Id>)
    | Remove(ids: set<Id>)

  ghost function Locks(source: Id, hits: seq<SimilarHit>): seq<Id> {
    SortedIds({source} + set i | 0 <= i < |hits| && hits[i].matched != NIL :: hits[i].matched)
  }

  function HeldLocks(w: Writer): seq<Id> {
    if w.held <= |w.locks| then w.locks[..w.held] else w.locks
  }

  ghost predicate LockFree(h: LockHash, s: Sys, t: WriterId, y: Id) {
    forall u: WriterId, x: Id {:trigger x in HeldLocks(s.writers[u])} ::
      u in s.writers && u != t && x in HeldLocks(s.writers[u]) ==> h(x) != h(y)
  }

  /** The source rows it keeps from being deleted: its own once touched, and those its
      written rows refer to. */
  function RowsHeld(w: Writer): set<Id> {
    if w.stage == TakingLocks then {}
    else
      var kept := FirstSimilar(w.hits);
      {w.source} + set i | 0 <= i < |kept| && i < w.next && kept[i].matched != NIL :: kept[i].matched
  }

  predicate At(s: Sys, t: WriterId, stage: Stage) {
    t in s.writers && s.writers[t].stage == stage
  }

  ghost predicate Enabled(h: LockHash, s: Sys, e: Event) {
    match e
    case Begin(t, _, _) => t !in s.writers
    case Take(t) =>
      && At(s, t, TakingLocks) && s.writers[t].held < |s.writers[t].locks|
      && LockFree(h, s, t, s.writers[t].locks[s.writers[t].held])
    case Touch(t) => At(s, t, TakingLocks) && s.writers[t].held == |s.writers[t].locks|
    case Clean(t) => At(s, t, Deleting)
    case Write(t) => At(s, t, Writing) && s.writers[t].next < |FirstSimilar(s.writers[t].hits)|
    case Commit(t) => At(s, t, Writing) && s.writers[t].next == |FirstSimilar(s.writers[t].hits)|
    case Abort(t) => t in s.writers
    case Add(_) => true
    case Remove(ids) => forall t :: t in s.writers ==> RowsHeld(s.writers[t]) !! ids
  }

  function End(s: Sys, t: WriterId): Sys {
    s.(writers := s.writers - {t})
  }

  function Put(s: Sys, t: WriterId, w: Writer): Sys {
    s.(writers := s.writers[t := w])
  }

  function Involving(similar: map<(Id, Id), real>, id: Id): set<(Id, Id)> {
    set k | k in similar && (k.0 == id || k.1 == id)
  }

  /** The tables as the atomic transactions see them: only which sources exist matters. */
  ghost function AsDb(living: set<Id>, similar: map<(Id, Id), real>): Db {
    EMPTY.(sources := map y | y in living :: Source(0, 0, None, Unique, None, true), similar := similar)
  }

  /** The next hit written in both directions, or skipped. */
  function Wrote(w: Writer): Writer
    requires w.next < |FirstSimilar(w.hits)|
  {
    var hit := FirstSimilar(w.hits)[w.next];
    if hit.matched == NIL || hit.matched == w.source then w.(next := w.next + 1)
    else w.(next := w.next + 1,
            written := w.written[(w.source, hit.matched) := hit.score][(hit.matched, w.source) := hit.score])
  }

  /** A refused hit ends the transaction. */
  ghost function AfterWrite(s: Sys, t: WriterId): Sys
    requires At(s, t, Writing) && s.writers[t].next < |FirstSimilar(s.writers[t].hits)|
  {
    var w := s.writers[t];
    if Violates(AsDb(s.living, s.similar), w.source, FirstSimilar(w.hits)[w.next]) then End(s, t)
    else Put(s, t, Wrote(w))
  }

  ghost function Step(h: LockHash, s: Sys, e: Event): Sys
    requires Enabled(h, s, e)
  {
    match e
    case Begin(t, source, hits) => Put(s, t, Writer(source, hits, TakingLocks, Locks(source, hits), 0, 0, {}, map[]))
    case Take(t) => Put(s, t, s.writers[t].(held := s.writers[t].held + 1))
    case Touch(t) => Put(s, t, s.writers[t].(stage := Deleting))
    case Clean(t) => Put(s, t, s.writers[t].(stage := Writing, deleted := Involving(s.similar, s.writers[t].source)))
    case Write(t) => AfterWrite(s, t)
    case Commit(t) => End(s.(similar := (s.similar - s.writers[t].deleted) + s.writers[t].written), t)
    case Abort(t) => End(s, t)
    case Add(ids) => s.(living := s.living + ids)
    case Remove(ids) =>
      s.(living := s.living - ids, similar := map k | k in s.similar && k.0 !in ids && k.1 !in ids :: s.similar[k])
  }

  ghost function Exec(h: LockHash, events: seq<Event>): Sys {
    if events == [] then Sys({}, map[], map[])
    else
      var s := Exec(h, events[..|events| - 1]);
      if Enabled(h, s, events[|events| - 1]) then Step(h, s, events[|events| - 1]) else s
  }

  // ----- what every interleaving keeps -----

  /** No lock number is held twice. */
  ghost predicate Exclusive(h: LockHash, s: Sys) {
    forall t: WriterId, y: Id :: t in s.writers && y in HeldLocks(s.writers[t]) ==> LockFree(h, s, t, y)
  }

  ghost predicate LocksPart(w: Writer) {
    && w.locks == Locks(w.source, w.hits) && w.held <= |w.locks|
    && (w.stage != TakingLocks ==> w.held == |w.locks|)
    && w.next <= |FirstSimilar(w.hits)| && (w.stage != Writing ==> w.next == 0 && w.written == map[])
  }

  /** Once writing: its delete covers every committed row of its source, and what it wrote
      is what the atomic transaction writes for the hits so far, none of them refused. */
  ghost predicate WrittenPart(living: set<Id>, similar: map<(Id, Id), real>, w: Writer)
    requires LocksPart(w)
  {
    w.stage == Writing ==>
      var kept := FirstSimilar(w.hits);
      && Involving(similar, w.source) <= w.deleted
      && (forall k :: k in w.deleted ==> k.0 == w.source || k.1 == w.source)
      && w.written == WrittenSimilar(map[], w.source, kept[..w.next])
      && (forall i :: 0 <= i < w.next ==> !Violates(AsDb(living, similar), w.source, kept[i]))
  }

  ghost predicate WriterOk(living: set<Id>, similar: map<(Id, Id), real>, w: Writer) {
    LocksPart(w) && WrittenPart(living, similar, w)
  }

  ghost predicate SysOk(h: LockHash, s: Sys) {
    && SimilarOk(AsDb(s.living, s.similar)) && Exclusive(h, s)
    && (forall t: WriterId :: t in s.writers ==> WriterOk(s.living, s.similar, s.writers[t]))
  }

  lemma EndOk(h: LockHash, s: Sys, t: WriterId)
    requires SysOk(h, s)
    ensures SysOk(h, End(s, t))
  {
    forall u, y | u in End(s, t).writers && y in HeldLocks(s.writers[u])
      ensures LockFree(h, End(s, t), u, y)
    {
      assert LockFree(h, s, u, y);
    }
  }

  lemma PutOk(h: LockHash, s: Sys, t: WriterId, w: Writer)
    requires SysOk(h, s) && WriterOk(s.living, s.similar, w)
    requires forall y :: y in HeldLocks(w) ==> LockFree(h, s, t, y)
    ensures SysOk(h, Put(s, t, w))
  {
    var s' := Put(s, t, w);
    forall u, y | u in s'.writers && y in HeldLocks(s'.writers[u])
      ensures LockFree(h, s', u, y)
    {
      assert LockFree(h, s, u, y);
    }
  }

  lemma MoveOk(h: LockHash, s: Sys, t: WriterId, w: Writer)
    requires SysOk(h, s) && WriterOk(s.living, s.similar, w)
    requires t in s.writers && HeldLocks(w) == HeldLocks(s.writers[t])
    ensures SysOk(h, Put(s, t, w))
  {
    PutOk(h, s, t, w);
  }

  lemma HoldsOneMore(w: Writer)
    requires LocksPart(w) && w.stage == TakingLocks && w.held < |w.locks|
    ensures LocksPart(w.(held := w.held + 1))
    ensures HeldLocks(w.(held := w.held + 1)) == HeldLocks(w) + [w.locks[w.held]]
  {
  }

  lemma TakeOk(h: LockHash, s: Sys, t: WriterId)
    requires SysOk(h, s) && Enabled(h, s, Take(t))
    ensures SysOk(h, Step(h, s, Take(t)))
  {
    var w := s.writers[t];
    var w' := w.(held := w.held + 1);
    HoldsOneMore(w);
    forall y | y in HeldLocks(w')
      ensures LockFree(h, s, t, y)
    {
      assert y in HeldLocks(w) || y == w.locks[w.held];
    }
    PutOk(h, s, t, w');
  }

  lemma WrittenNext(id: Id, hits: seq<SimilarHit>, n: nat)
    requires n < |hits|
    ensures var before, hit := WrittenSimilar(map[], id, hits[..n]), hits[n];
            WrittenSimilar(map[], id, hits[..n + 1]) ==
            if hit.matched == NIL || hit.matched == id then before
            else before[(id, hit.matched) := hit.score][(hit.matched, id) := hit.score]
  {
    assert hits[..n + 1][..n] == hits[..n];
  }

  lemma WroteOk(living: set<Id>, similar: map<(Id, Id), real>, w: Writer)
    requires WriterOk(living, similar, w) && w.stage == Writing && w.next < |FirstSimilar(w.hits)|
    requires !Violates(AsDb(living, similar), w.source, FirstSimilar(w.hits)[w.next])
    ensures WriterOk(living, similar, Wrote(w))
  {
    var kept, after := FirstSimilar(w.hits), Wrote(w);
    WrittenNext(w.source, kept, w.next);
    forall i | 0 <= i < after.next
      ensures !Violates(AsDb(living, similar), w.source, kept[i])
    {
      assert i < w.next || i == w.next;
    }
  }

  lemma WriteOk(h: LockHash, s: Sys, t: WriterId)
    requires SysOk(h, s) && Enabled(h, s, Write(t))
    ensures SysOk(h, AfterWrite(s, t))
  {
    var w := s.writers[t];
    if Violates(AsDb(s.living, s.similar), w.source, FirstSimilar(w.hits)[w.next]) {
      EndOk(h, s, t);
    } else {
      WroteOk(s.living, s.similar, w);
      MoveOk(h, s, t, Wrote(w));
    }
  }

  // ----- a commit is atomic -----

  /** The write loop adds to what was there before. */
  lemma {:induction false} WrittenOnTop(similar: map<(Id, Id), real>, id: Id, hits: seq<SimilarHit>)
    ensures WrittenSimilar(similar, id, hits) == similar + WrittenSimilar(map[], id, hits)
  {
    if hits != [] {
      WrittenOnTop(similar, id, hits[..|hits| - 1]);
    }
  }

  /** What the commit makes visible is what the atomic transaction computes. */
  lemma CommitIsReplace(living: set<Id>, similar: map<(Id, Id), real>, w: Writer)
    requires WriterOk(living, similar, w) && w.stage == Writing && w.next == |FirstSimilar(w.hits)|
    ensures ReplaceSimilar(AsDb(living, similar), w.source, w.hits) ==
            Reply(Done, AsDb(living, (similar - w.deleted) + w.written))
  {
    var kept := FirstSimilar(w.hits);
    assert kept[..w.next] == kept;
    WrittenOnTop(Others(similar, w.source), w.source, kept);
    assert similar - w.deleted == Others(similar, w.source);
  }

  /** Everything a transaction writes lies between sources whose locks it holds. */
  lemma {:induction false} WrittenLocked(id: Id, hits: seq<SimilarHit>, k: (Id, Id))
    requires k in WrittenSimilar(map[], id, hits)
    ensures k.0 == id || exists i :: 0 <= i < |hits| && hits[i].matched == k.0 != NIL
    ensures k.1 == id || exists i :: 0 <= i < |hits| && hits[i].matched == k.1 != NIL
  {
    var front, hit := hits[..|hits| - 1], hits[|hits| - 1];
    if k in WrittenSimilar(map[], id, front) {
      WrittenLocked(id, front, k);
      assert forall i :: 0 <= i < |front| ==> front[i] == hits[i];
    } else {
      assert hits[|hits| - 1].matched == hit.matched;
    }
  }

  lemma WrittenInLocks(living: set<Id>, similar: map<(Id, Id), real>, w: Writer, k: (Id, Id))
    requires WriterOk(living, similar, w) && w.stage == Writing && k in w.written
    ensures k.0 in HeldLocks(w) && k.1 in HeldLocks(w)
  {
    var kept := FirstSimilar(w.hits);
    WrittenLocked(w.source, kept[..w.next], k);
    assert forall i :: 0 <= i < w.next ==> kept[..w.next][i] == w.hits[i];
    assert w.locks[..|w.locks|] == w.locks;
  }

  lemma OwnLockHeld(w: Writer)
    requires LocksPart(w) && w.stage != TakingLocks
    ensures w.source in HeldLocks(w)
  {
    assert w.locks[..|w.locks|] == w.locks;
  }

  /** A commit writes no row of another writer's source. */
  lemma CommitElsewhere(h: LockHash, s: Sys, t: WriterId, u: WriterId, k: (Id, Id))
    requires SysOk(h, s) && At(s, t, Writing) && At(s, u, Writing) && t != u && k in s.writers[t].written
    ensures k.0 != s.writers[u].source && k.1 != s.writers[u].source
  {
    WrittenInLocks(s.living, s.similar, s.writers[t], k);
    OwnLockHeld(s.writers[u]);
    assert LockFree(h, s, u, s.writers[u].source);
  }

  lemma SameRefusals(living: set<Id>, similar: map<(Id, Id), real>, other: set<Id>, later: map<(Id, Id), real>, id: Id, hit: SimilarHit)
    requires id in living <==> id in other
    requires hit.matched != NIL ==> (hit.matched in living <==> hit.matched in other)
    ensures Violates(AsDb(living, similar), id, hit) <==> Violates(AsDb(other, later), id, hit)
  {
  }

  /** A writer after the tables changed without touching its rows. */
  lemma WriterStable(s: Sys, living: set<Id>, similar: map<(Id, Id), real>, w: Writer)
    requires WriterOk(s.living, s.similar, w)
    requires forall y :: y in RowsHeld(w) ==> (y in living <==> y in s.living)
    requires w.stage == Writing ==> Involving(similar, w.source) <= Involving(s.similar, w.source)
    ensures WriterOk(living, similar, w)
  {
    if w.stage == Writing {
      var kept := FirstSimilar(w.hits);
      forall i | 0 <= i < w.next
        ensures !Violates(AsDb(living, similar), w.source, kept[i])
      {
        assert kept[i].matched != NIL ==> kept[i].matched in RowsHeld(w);
        SameRefusals(s.living, s.similar, living, similar, w.source, kept[i]);
      }
    }
  }

  lemma TablesOk(h: LockHash, s: Sys, living: set<Id>, similar: map<(Id, Id), real>)
    requires SysOk(h, s) && SimilarOk(AsDb(living, similar))
    requires forall t: WriterId :: t in s.writers ==> WriterOk(living, similar, s.writers[t])
    ensures SysOk(h, Sys(living, similar, s.writers))
  {
    forall u, y | u in s.writers && y in HeldLocks(s.writers[u])
      ensures LockFree(h, Sys(living, similar, s.writers), u, y)
    {
      assert LockFree(h, s, u, y);
    }
  }

  lemma CommitOk(h: LockHash, s: Sys, t: WriterId)
    requires SysOk(h, s) && Enabled(h, s, Commit(t))
    ensures SysOk(h, Step(h, s, Commit(t)))
  {
    var w, rest := s.writers[t], End(s, t);
    var later := (s.similar - w.deleted) + w.written;
    CommitIsReplace(s.living, s.similar, w);
    ReplacedSimilarOk(AsDb(s.living, s.similar), w.source, w.hits);
    EndOk(h, s, t);
    forall u: WriterId | u in rest.writers
      ensures WriterOk(s.living, later, rest.writers[u])
    {
      var x := s.writers[u];
      if x.stage == Writing {
        forall k | k in Involving(later, x.source)
          ensures k in Involving(s.similar, x.source)
        {
          if k in w.written {
            CommitElsewhere(h, s, t, u, k);
          }
        }
      }
      WriterStable(s, s.living, later, x);
    }
    TablesOk(h, rest, s.living, later);
  }

  lemma AddOk(h: LockHash, s: Sys, ids: set<Id>)
    requires SysOk(h, s)
    ensures SysOk(h, Step(h, s, Add(ids)))
  {
    forall t: WriterId | t in s.writers
      ensures WriterOk(s.living + ids, s.similar, s.writers[t])
    {
      GrowStable(s.living, ids, s.similar, s.writers[t]);
    }
    TablesOk(h, s, s.living + ids, s.similar);
  }

  /** More sources refuse no more hits. */
  lemma GrowStable(living: set<Id>, ids: set<Id>, similar: map<(Id, Id), real>, w: Writer)
    requires WriterOk(living, similar, w)
    ensures WriterOk(living + ids, similar, w)
  {
    if w.stage == Writing {
      var kept := FirstSimilar(w.hits);
      forall i | 0 <= i < w.next
        ensures !Violates(AsDb(living + ids, similar), w.source, kept[i])
      {
        assert !Violates(AsDb(living, similar), w.source, kept[i]);
      }
    }
  }

  lemma RemoveOk(h: LockHash, s: Sys, ids: set<Id>)
    requires SysOk(h, s) && Enabled(h, s, Remove(ids))
    ensures SysOk(h, Step(h, s, Remove(ids)))
  {
    var after := Step(h, s, Remove(ids));
    forall t: WriterId | t in s.writers
      ensures WriterOk(after.living, after.similar, s.writers[t])
    {
      WriterStable(s, after.living, after.similar, s.writers[t]);
    }
    TablesOk(h, s, after.living, after.similar);
  }

  lemma BeginOk(h: LockHash, s: Sys, t: WriterId, source: Id, hits: seq<SimilarHit>)
    requires SysOk(h, s)
    ensures SysOk(h, Put(s, t, Writer(source, hits, TakingLocks, Locks(source, hits), 0, 0, {}, map[])))
  {
    PutOk(h, s, t, Writer(source, hits, TakingLocks, Locks(source, hits), 0, 0, {}, map[]));
  }

  lemma CleanOk(h: LockHash, s: Sys, t: WriterId)
    requires SysOk(h, s) && At(s, t, Deleting)
    ensures SysOk(h, Put(s, t, s.writers[t].(stage := Writing, deleted := Involving(s.similar, s.writers[t].source))))
  {
    MoveOk(h, s, t, s.writers[t].(stage := Writing, deleted := Involving(s.similar, s.writers[t].source)));
  }

  lemma StepOk(h: LockHash, s: Sys, e: Event)
    requires SysOk(h, s) && Enabled(h, s, e)
    ensures SysOk(h, Step(h, s, e))
  {
    match e
    case Begin(t, source, hits) => BeginOk(h, s, t, source, hits);
    case Take(t) => TakeOk(h, s, t);
    case Touch(t) => MoveOk(h, s, t, s.writers[t].(stage := Deleting));
    case Clean(t) => CleanOk(h, s, t);
    case Write(t) => WriteOk(h, s, t);
    case Commit(t) => CommitOk(h, s, t);
    case Abort(t) => EndOk(h, s, t);
    case Add(ids) => AddOk(h, s, ids);
    case Remove(ids) => RemoveOk(h, s, ids);
  }

  lemma {:induction false} ExecOk(h: LockHash, events: seq<Event>)
    ensures SysOk(h, Exec(h, events))
  {
    if events != [] {
      var s, e := Exec(h, events[..|events| - 1]), events[|events| - 1];
      ExecOk(h, events[..|events| - 1]);
      if Enabled(h, s, e) {
        StepOk(h, s, e);
      }
    }
  }

  // ----- results -----

  /** In every interleaving, a commit has exactly the effect that the atomic transaction
      would have on the tables at that moment. */
  lemma ReplaceIsAtomic(h: LockHash, events: seq<Event>, t: WriterId)
    requires Enabled(h, Exec(h, events), Commit(t))
    ensures var s := Exec(h, events);
            ReplaceSimilar(AsDb(s.living, s.similar), s.writers[t].source, s.writers[t].hits) ==
            Reply(Done, AsDb(s.living, Step(h, s, Commit(t)).similar))
  {
    ExecOk(h, events);
    var s := Exec(h, events);
    CommitIsReplace(s.living, s.similar, s.writers[t]);
  }

  /** In every interleaving with each other and with removals, similarities come in mirror
      images with equal scores in 0..1, between two different existing sources. */
  lemma SymmetricInEveryInterleaving(h: LockHash, events: seq<Event>, a: Id, b: Id)
    requires (a, b) in Exec(h, events).similar
    ensures var s := Exec(h, events);
            && a != b && a in s.living && b in s.living
            && (b, a) in s.similar && s.similar[(b, a)] == s.similar[(a, b)] && 0.0 <= s.similar[(a, b)] <= 1.0
  {
    ExecOk(h, events);
    assert SimilarOk(AsDb(Exec(h, events).living, Exec(h, events).similar));
  }

  // ----- no deadlock -----

  /** The one step a transaction takes next by itself. */
  function Next(t: WriterId, w: Writer): Event {
    match w.stage
    case TakingLocks => if w.held < |w.locks| then Take(t) else Touch(t)
    case Deleting => Clean(t)
    case Writing => if w.next < |FirstSimilar(w.hits)| then Write(t) else Commit(t)
  }

  /** The sources whose locks the transactions in flight take. */
  ghost function LocksInFlight(s: Sys): set<Id> {
    set t: WriterId, y: Id | t in s.writers && y in s.writers[t].locks :: y
  }

  /** Different sources among these have different lock numbers. */
  ghost predicate Apart(h: LockHash, ids: set<Id>) {
    forall x, y :: x in ids && y in ids && h(x) == h(y) ==> x == y
  }

  /** Waiting for an advisory lock, the only thing a transaction ever waits for. */
  ghost predicate Waiting(h: LockHash, s: Sys, t: WriterId) {
    && t in s.writers && LocksPart(s.writers[t]) && !Enabled(h, s, Next(t, s.writers[t]))
  }

  lemma WaitsForLock(h: LockHash, s: Sys, t: WriterId)
    requires Waiting(h, s, t)
    ensures var w := s.writers[t];
            w.stage == TakingLocks && w.held < |w.locks| && !LockFree(h, s, t, w.locks[w.held])
  {
  }

  /** The lock a waiting transaction wants. */
  function Wanted(w: Writer): Id {
    if w.held < |w.locks| then w.locks[w.held] else 0
  }

  lemma SameLock(h: LockHash, s: Sys, t: WriterId, y: Id, u: WriterId, x: Id)
    requires Apart(h, LocksInFlight(s)) && t in s.writers && u in s.writers
    requires y in s.writers[t].locks && x in s.writers[u].locks && h(x) == h(y)
    ensures x == y
  {
    assert x in LocksInFlight(s) && y in LocksInFlight(s);
  }

  lemma HeldBelowNext(w: Writer, y: Id)
    requires LocksPart(w) && y in HeldLocks(w) && w.held < |w.locks|
    ensures y < w.locks[w.held]
  {
    var i :| 0 <= i < w.held && w.locks[i] == y;
  }

  /** Whoever holds the wanted lock and waits itself, waits for a higher one. */
  lemma HolderWantsMore(h: LockHash, s: Sys, t: WriterId) returns (u: WriterId)
    requires Apart(h, LocksInFlight(s)) && Waiting(h, s, t)
    requires forall v: WriterId :: v in s.writers ==> LocksPart(s.writers[v])
    ensures u in s.writers && (Waiting(h, s, u) ==> Wanted(s.writers[t]) < Wanted(s.writers[u]))
  {
    WaitsForLock(h, s, t);
    var y := s.writers[t].locks[s.writers[t].held];
    var x: Id;
    u, x :| u in s.writers && u != t && x in HeldLocks(s.writers[u]) && h(x) == h(y);
    SameLock(h, s, t, y, u, x);
    if Waiting(h, s, u) {
      WaitsForLock(h, s, u);
      HeldBelowNext(s.writers[u], y);
    }
  }

  lemma {:induction false} Topmost(s: Sys, ids: set<WriterId>) returns (t: WriterId)
    requires ids != {} && ids <= s.writers.Keys
    ensures t in ids && forall u :: u in ids ==> Wanted(s.writers[u]) <= Wanted(s.writers[t])
    decreases |ids|
  {
    t := Pick(ids);
    var first, rest := t, ids - {t};
    if rest != {} {
      var r := Topmost(s, rest);
      if Wanted(s.writers[first]) < Wanted(s.writers[r]) {
        t := r;
      }
      forall u | u in ids
        ensures Wanted(s.writers[u]) <= Wanted(s.writers[t])
      {
        assert u == first || u in rest;
      }
    } else {
      forall u | u in ids
        ensures u == t
      {
        assert u !in rest;
      }
    }
  }

  lemma SomeoneMoves(h: LockHash, s: Sys) returns (t: WriterId)
    requires Apart(h, LocksInFlight(s)) && s.writers != map[]
    requires forall v: WriterId :: v in s.writers ==> LocksPart(s.writers[v])
    ensures t in s.writers && Enabled(h, s, Next(t, s.writers[t]))
  {
    t := Topmost(s, s.writers.Keys);
    if Waiting(h, s, t) {
      t := HolderWantsMore(h, s, t);
    }
  }

  /** In no interleaving do the replacements in flight block each other at their advisory
      locks: one of them can take its next step. */
  lemma NoDeadlock(h: LockHash, events: seq<Event>)
    requires Apart(h, LocksInFlight(Exec(h, events))) && Exec(h, events).writers != map[]
    ensures var s := Exec(h, events);
            exists t :: t in s.writers && Enabled(h, s, Next(t, s.writers[t]))
  {
    ExecOk(h, events);
    var t := SomeoneMoves(h, Exec(h, events));
  }
}
