/** Pairs, roles, scores and holds, said in terms of what the files contain and when they
    were uploaded, for every run and every interleaving. */
module Contents {
  import opened Fingerprints
  import opened Histories
  import opened Interleavings
  import opened Invariants
  import opened Likeness
  import opened Protocol
  import opened Runs
  import opened Searches
  import opened Sequences
  import opened Serializability
  import opened Tables

  /** Two different living finalised sources with alike files. */
  predicate Twins(db: Db, a: Id, b: Id) {
    a != b && Hashed(db, a) && Hashed(db, b) && Alike(FpOf(db, a), FpOf(db, b))
  }

  /** Uploaded earlier, or at the same time under a smaller id. */
  predicate Earlier(db: Db, a: Id, b: Id)
    requires a in db.sources && b in db.sources
  {
    var s, t := db.sources[a].uploaded, db.sources[b].uploaded;
    s < t || (s == t && a < b)
  }

  lemma EarlierIsBefore(db: Db, a: Id, b: Id)
    requires a in db.sources && b in db.sources
    ensures Before(db, a, b) <==> Earlier(db, a, b)
  {
  }

  lemma TwinsArePaired(db: Db, a: Id, b: Id)
    requires FpsOk(db)
    ensures Paired(db, a, b) <==> Twins(db, a, b)
    ensures Twins(db, a, b) ==>
              PairOf(db, a, b) == Pair(Grade(FpOf(db, a), FpOf(db, b)), KindOf(FpOf(db, a), FpOf(db, b)))
  {
    if Hashed(db, a) && Hashed(db, b) {
      LinkMeaning(FpOf(db, a), FpOf(db, b));
    }
  }

  // ----- pairs -----

  /** The recorded pairs are the twins, with their grade and kind. */
  ghost predicate PairsAreTwins(db: Db) {
    forall a: Id, b: Id ::
      && ((a, b) in db.pairs <==> Twins(db, a, b))
      && ((a, b) in db.pairs ==>
            db.pairs[(a, b)] == Pair(Grade(FpOf(db, a), FpOf(db, b)), KindOf(FpOf(db, a), FpOf(db, b))))
  }

  lemma InvPairs(db: Db)
    requires FpsOk(db) && PairsOk(db)
    ensures PairsAreTwins(db)
  {
    forall a: Id, b: Id
      ensures (a, b) in db.pairs <==> Twins(db, a, b)
      ensures (a, b) in db.pairs ==>
                db.pairs[(a, b)] == Pair(Grade(FpOf(db, a), FpOf(db, b)), KindOf(FpOf(db, a), FpOf(db, b)))
    {
      assert (a, b) in db.pairs <==> Paired(db, a, b);
      TwinsArePaired(db, a, b);
    }
  }

  /** After every run the pairs recorded are exactly the living sources with alike files. */
  lemma PairsOfRun(acts: seq<Action>)
    requires AllFormed(acts)
    ensures PairsAreTwins(Run(acts))
  {
    RunInv(acts);
    InvPairs(Run(acts));
  }

  lemma PairsInInterleavings(h: LockHash, events: seq<Event>)
    ensures PairsAreTwins(Exec(h, events).db)
  {
    ExecIsSerial(h, events);
    PairsOfRun(Serial(h, events));
  }

  // ----- roles -----

  /** Of two twins the later one is a duplicate, neither is unique, and both score at
      least what they are worth to each other. */
  ghost predicate TwinsHaveRoles(db: Db, a: Id, b: Id) {
    Twins(db, a, b) ==>
      && db.sources[a].role != Unique && db.sources[b].role != Unique
      && (Earlier(db, a, b) ==> db.sources[b].role == Duplicate)
      && (Earlier(db, b, a) ==> db.sources[a].role == Duplicate)
      && db.sources[a].score.Some? && Grade(FpOf(db, a), FpOf(db, b)) <= db.sources[a].score.value
  }

  /** So it is after every run, whatever was removed in between. */
  lemma RolesOfTwins(acts: seq<Action>, a: Id, b: Id)
    requires AllFormed(acts)
    ensures TwinsHaveRoles(Run(acts), a, b)
  {
    var db := Run(acts);
    RunInv(acts);
    if Twins(db, a, b) {
      TwinsArePaired(db, a, b);
      PairedSymmetric(db, a, b);
      EarlierIsBefore(db, a, b);
      EarlierIsBefore(db, b, a);
      assert RoleOk(db, a) && RoleOk(db, b);
    }
  }

  lemma RolesOfTwinsInInterleavings(h: LockHash, events: seq<Event>, a: Id, b: Id)
    ensures TwinsHaveRoles(Exec(h, events).db, a, b)
  {
    ExecIsSerial(h, events);
    RolesOfTwins(Serial(h, events), a, b);
  }

  /** Unique without a twin, duplicate with an earlier one, original otherwise; the score
      is the best one among the twins. */
  ghost predicate RoleByTwins(db: Db, a: Id)
    requires a in db.sources
  {
    var s := db.sources[a];
    && (s.role == Unique <==> !exists b: Id :: Twins(db, a, b))
    && (s.role == Duplicate <==> exists b: Id :: Twins(db, a, b) && Earlier(db, b, a))
    && (s.score.Some? <==> exists b: Id :: Twins(db, a, b))
    && (forall b: Id :: Twins(db, a, b) ==> Grade(FpOf(db, a), FpOf(db, b)) <= s.score.value)
    && (s.score.Some? ==> exists b: Id :: Twins(db, a, b) && Grade(FpOf(db, a), FpOf(db, b)) == s.score.value)
  }

  lemma RolesByTwins(db: Db, a: Id)
    requires FpsOk(db) && Hashed(db, a) && RoleExact(db, a)
    ensures RoleByTwins(db, a)
  {
    forall b: Id
      ensures Twins(db, a, b) <==> Paired(db, a, b)
      ensures Twins(db, a, b) ==> PairOf(db, a, b).score == Grade(FpOf(db, a), FpOf(db, b))
      ensures Twins(db, a, b) ==> (Earlier(db, b, a) <==> Before(db, b, a))
    {
      TwinsArePaired(db, a, b);
    }
    var s := db.sources[a];
    if s.role != Unique {
      var b: Id :| Paired(db, a, b) && PairOf(db, a, b).score == s.score.value;
      assert Twins(db, a, b) && Grade(FpOf(db, a), FpOf(db, b)) == s.score.value;
    }
    if s.role == Duplicate {
      var b: Id :| Paired(db, a, b) && Before(db, b, a);
      assert Twins(db, a, b) && Earlier(db, b, a);
    }
  }

  /** As long as nothing is removed, roles and scores are a matter of the files alone. */
  lemma RolesOfRun(acts: seq<Action>, a: Id)
    requires AllFormed(acts) && NothingRemoved(acts) && Hashed(Run(acts), a)
    ensures RoleByTwins(Run(acts), a)
  {
    RunInv(acts);
    RunRolesExact(acts);
    RolesByTwins(Run(acts), a);
  }

  lemma RolesInInterleavings(h: LockHash, events: seq<Event>, a: Id)
    requires RemovesNothing(events) && Hashed(Exec(h, events).db, a)
    ensures RoleByTwins(Exec(h, events).db, a)
  {
    ExecIsSerial(h, events);
    SerialRemovesNothing(h, events);
    RolesOfRun(Serial(h, events), a);
  }

  // ----- roles over time -----

  function ScoreOf(s: Source): real {
    if s.score.Some? then s.score.value else 0.0
  }

  /** Unless it is gone: a duplicate stays one, an original stays at least that, and the
      score does not fall. */
  ghost predicate RoleGrows(db: Db, after: Db, x: Id) {
    Hashed(db, x) && x in after.sources ==>
      && Hashed(after, x)
      && (db.sources[x].role == Duplicate ==> after.sources[x].role == Duplicate)
      && (db.sources[x].role != Unique ==> after.sources[x].role != Unique)
      && ScoreOf(db.sources[x]) <= ScoreOf(after.sources[x])
  }

  lemma FinalGrows(db: Db, id: Id, fp: Fingerprint, hits: Hits, ids: set<Id>, x: Id)
    requires id in db.sources && db.sources[id].doc in db.docs && id !in hits && db.sources[id].fp.None?
    ensures RoleGrows(db, Finalized(db, id, fp, hits, ids), x)
  {
  }

  lemma HashGrows(db: Db, id: Id, fp: Fingerprint, extra: set<Id>, x: Id)
    ensures RoleGrows(db, Finalize(db, id, fp, extra), x)
  {
    if !(fp.sha == "" || id !in db.sources || db.sources[id].fp.Some? || db.sources[id].doc !in db.docs) {
      var candidates := Candidates(db, id, fp);
      FinalGrows(db, id, fp, Confident(fp, candidates), {db.sources[id].doc} + DocsOf(candidates) + extra, x);
    }
  }

  lemma StepGrows(db: Db, a: Action, x: Id)
    ensures RoleGrows(db, Do(db, a), x)
  {
    match a
    case Hash(id, fp, extra) => HashGrows(db, id, fp, extra, x);
    case _ =>
  }

  ghost predicate Stays(pre: seq<Action>, post: seq<Action>, x: Id) {
    forall i :: 0 <= i <= |post| ==> x in Run(pre + post[..i]).sources
  }

  lemma StaysBefore(pre: seq<Action>, post: seq<Action>, x: Id)
    requires Stays(pre, post, x) && post != []
    ensures Stays(pre, post[..|post| - 1], x) && x in Run(pre + post).sources
  {
    var front := post[..|post| - 1];
    forall i | 0 <= i <= |front|
      ensures x in Run(pre + front[..i]).sources
    {
      assert front[..i] == post[..i];
    }
    assert post[..|post|] == post;
  }

  lemma GrowsOn(db: Db, mid: Db, after: Db, x: Id)
    requires Hashed(mid, x) && Hashed(db, x) && x in after.sources && RoleGrows(db, mid, x) && RoleGrows(mid, after, x)
    ensures RoleGrows(db, after, x) && Hashed(after, x)
  {
  }

  /** Over every run, as long as the source exists. */
  lemma {:induction false} RolesOnlyGrow(pre: seq<Action>, post: seq<Action>, x: Id)
    requires Hashed(Run(pre), x) && Stays(pre, post, x)
    ensures RoleGrows(Run(pre), Run(pre + post), x) && Hashed(Run(pre + post), x)
    decreases |post|
  {
    if post == [] {
      assert pre + post == pre;
    } else {
      var front, a := post[..|post| - 1], post[|post| - 1];
      StaysBefore(pre, post, x);
      RolesOnlyGrow(pre, front, x);
      SplitLast(pre, post);
      StepGrows(Run(pre + front), a, x);
      GrowsOn(Run(pre), Run(pre + front), Run(pre + post), x);
    }
  }

  // ----- holds -----

  /** Some living finalised source, uploaded earlier, has a file alike. */
  ghost predicate EarlierTwin(db: Db, id: Id, fp: Fingerprint)
    requires id in db.sources
  {
    exists y: Id :: Hashed(db, y) && y != id && Alike(fp, FpOf(db, y)) && Earlier(db, y, id)
  }

  lemma MatchIsTwin(db: Db, id: Id, fp: Fingerprint)
    requires FpsOk(db) && WellFormed(fp) && id in db.sources
    ensures EarlierMatch(db, id, fp) <==> EarlierTwin(db, id, fp)
  {
    forall y: Id | Hashed(db, y)
      ensures Link(fp, FpOf(db, y)).Some? <==> Alike(fp, FpOf(db, y))
      ensures Before(db, y, id) <==> Earlier(db, y, id)
    {
      LinkMeaning(fp, FpOf(db, y));
    }
  }

  /** What is held back: an unreleased duplicate of a member that is not trusted, which
      had an earlier twin when it was finalised. */
  ghost predicate HeldByContent(before: Db, now: Db, id: Id, fp: Fingerprint) {
    && id in before.sources && before.sources[id].doc in before.docs && Hashed(now, id)
    && (now.sources[id].role == Duplicate && !now.sources[id].released <==>
          !before.docs[before.sources[id].doc].trusted && EarlierTwin(before, id, fp))
  }

  /** After every run, until a decision on its document. */
  lemma HeldOfRun(pre: seq<Action>, id: Id, fp: Fingerprint, extra: set<Id>, post: seq<Action>)
    requires AllFormed(pre + [Hash(id, fp, extra)] + post)
    requires fp.sha != "" && id in Run(pre).sources && Run(pre).sources[id].fp.None?
    requires forall i :: 0 <= i < |post| ==> !Decides(post[i], Run(pre).sources[id].doc)
    ensures HeldByContent(Run(pre), Run(pre + [Hash(id, fp, extra)] + post), id, fp)
  {
    FormedParts(pre, Hash(id, fp, extra), post);
    RunInv(pre);
    HeldExactly(pre, id, fp, extra, post);
    MatchIsTwin(Run(pre), id, fp);
  }

  lemma HeldInInterleavings(h: LockHash, events: seq<Event>, t: TxnId, more: seq<Event>)
    requires Enabled(h, Exec(h, events), Commit(t))
    requires var x := Exec(h, events).txns[t];
             forall i :: 0 <= i < |more| ==> DecidesNot(more[i], x.doc)
    ensures var s := Exec(h, events);
            HeldByContent(s.db, Exec(h, events + [Commit(t)] + more).db, s.txns[t].source, s.txns[t].fp)
  {
    var s := Exec(h, events);
    ExecOk(h, events);
    HeldExactlyInInterleavings(h, events, t, more);
    FpsOfSys(h, s, t);
    MatchIsTwin(s.db, s.txns[t].source, s.txns[t].fp);
  }

  lemma FpsOfSys(h: LockHash, s: Sys, t: TxnId)
    requires SysOk(h, s) && t in s.txns
    ensures FpsOk(s.db) && WellFormed(s.txns[t].fp)
  {
  }
}
