/** The repository object: its tables are fields that each transaction updates in
    place, and each method is one transaction (or one statement of it). The functions
    of Tables say what a method does to the state. */
module Repositories {
  import opened Fingerprints
  import opened Matches
  import opened Options
  import opened Sequences
  import opened Tables
  import opened Words
  import E = Effects
  import I = Invariants
  import N = Notes

  // ----- how the loops build the final tables -----

  /** The matched sources take their role against the new one. */
  function Promotions(base: map<Id, Source>, id: Id, at: int, hits: Hits): map<Id, Source> {
    map s | s in base ::
      if s != id && s in hits then
        Promoted(base[s], if UploadedFirst(s, hits[s].uploaded, id, at) then Original else Duplicate, hits[s].score)
      else base[s]
  }

  lemma PromotionsNext(base: map<Id, Source>, id: Id, at: int, hits: Hits, m: Match)
    requires m.source in base && m.source != id && m.source !in hits
    ensures Promotions(base, id, at, hits)[m.source] == base[m.source]
    ensures Promotions(base, id, at, hits[m.source := m.hit]) ==
            Promotions(base, id, at, hits)[m.source :=
              Promoted(base[m.source],
                       if UploadedFirst(m.source, m.hit.uploaded, id, at) then Original else Duplicate,
                       m.hit.score)]
  {
  }

  /** The entry of one pair after the matches have been recorded. */
  function PairEntry(pairs: map<(Id, Id), Pair>, id: Id, hits: Hits, k: (Id, Id)): Option<Pair> {
    if k.0 == id && k.1 in hits then Some(Upserted(pairs, k, hits[k.1].score, hits[k.1].kind)[k])
    else if k.1 == id && k.0 in hits then Some(Upserted(pairs, k, hits[k.0].score, hits[k.0].kind)[k])
    else Entry(pairs, k)
  }

  function Entry(pairs: map<(Id, Id), Pair>, k: (Id, Id)): Option<Pair> {
    if k in pairs then Some(pairs[k]) else None
  }

  lemma FinalEntry(pairs: map<(Id, Id), Pair>, id: Id, hits: Hits, k: (Id, Id))
    requires id !in hits
    ensures Entry(FinalPairs(pairs, id, hits), k) == PairEntry(pairs, id, hits, k)
  {
  }

  lemma UpsertedEntry(pairs: map<(Id, Id), Pair>, key: (Id, Id), score: real, kind: Kind, k: (Id, Id))
    ensures Entry(Upserted(pairs, key, score, kind), k) ==
            if k == key then Some(Upserted(pairs, key, score, kind)[key]) else Entry(pairs, k)
  {
  }

  lemma SameEntries(a: map<(Id, Id), Pair>, b: map<(Id, Id), Pair>)
    requires forall k :: Entry(a, k) == Entry(b, k)
    ensures a == b
  {
    forall k
      ensures k in a <==> k in b
      ensures k in a ==> a[k] == b[k]
    {
      assert Entry(a, k) == Entry(b, k);
    }
  }

  lemma PairsNext(pairs: map<(Id, Id), Pair>, id: Id, hits: Hits, m: Match)
    requires id !in hits && m.source != id && m.source !in hits
    ensures FinalPairs(pairs, id, hits[m.source := m.hit]) ==
            Upserted(Upserted(FinalPairs(pairs, id, hits), (id, m.source), m.hit.score, m.hit.kind),
                     (m.source, id), m.hit.score, m.hit.kind)
  {
    var was, now := FinalPairs(pairs, id, hits), FinalPairs(pairs, id, hits[m.source := m.hit]);
    var one := Upserted(was, (id, m.source), m.hit.score, m.hit.kind);
    var two := Upserted(one, (m.source, id), m.hit.score, m.hit.kind);
    forall k
      ensures Entry(now, k) == Entry(two, k)
    {
      FinalEntry(pairs, id, hits, k);
      FinalEntry(pairs, id, hits[m.source := m.hit], k);
      UpsertedEntry(was, (id, m.source), m.hit.score, m.hit.kind, k);
      UpsertedEntry(one, (m.source, id), m.hit.score, m.hit.kind, k);
    }
    SameEntries(now, two);
  }

  lemma NoPairs(pairs: map<(Id, Id), Pair>, id: Id)
    ensures FinalPairs(pairs, id, map[]) == pairs
  {
  }

  lemma BestIsUnique(hits: Hits, a: real, b: real)
    requires IsBest(hits, a) && IsBest(hits, b)
    ensures a == b
  {
  }

  /** The new source's row after the matches have been counted. */
  ghost function OwnRow(s: Source, id: Id, hits: Hits): Source {
    s.(role := RoleAgainst(id, s.uploaded, hits), score := if hits == map[] then None else Some(BestScore(hits)))
  }

  lemma MergeEmpty(hits: Hits)
    ensures Merge(map[], hits) == hits && Merge(hits, map[]) == hits
  {
  }

  lemma DocsNext(ms: seq<Match>, i: nat)
    requires Distinct(ms) && i < |ms|
    ensures DocsOf(Index(ms[..i + 1])) == DocsOf(Index(ms[..i])) + {ms[i].hit.doc}
  {
    KeepNext(ms, i, []);
    var was, now := Index(ms[..i]), Index(ms[..i + 1]);
    assert now[ms[i].source].doc == ms[i].hit.doc;
    forall y | y in was
      ensures was[y].doc in DocsOf(now)
    {
      assert now[y] == was[y];
    }
  }

  lemma AllLiving(db: Db, id: Id, fp: Fingerprint)
    ensures id !in Candidates(db, id, fp) && Candidates(db, id, fp).Keys <= db.sources.Keys
    ensures Only(Candidates(db, id, fp), db.sources.Keys) == Candidates(db, id, fp)
  {
  }

  /** The rows after each statement of a finalisation. */
  lemma FinalRows(db: Db, id: Id, fp: Fingerprint, hits: Hits, rows: map<Id, Source>)
    requires id in db.sources && db.sources[id].doc in db.docs && id !in hits
    requires var x := db.sources[id].(fp := Some(fp));
             var written := Promotions(db.sources[id := x][id := OwnRow(x, id, hits)], id, x.uploaded, hits);
             rows == written[id := written[id].(released := db.docs[x.doc].trusted || written[id].role != Duplicate)]
    ensures rows == FinalSources(db, id, fp, hits)
  {
  }

  lemma FinalizedParts(db: Db, id: Id, fp: Fingerprint, hits: Hits, ids: set<Id>, after: Db)
    requires id in db.sources && db.sources[id].doc in db.docs && id !in hits
    requires after.sources == FinalSources(db, id, fp, hits)
    requires after.docs == SettledDocs(db.docs, after.sources, ids)
    requires after.pairs == FinalPairs(db.pairs, id, hits)
    requires after.lsh == FinalLsh(db.lsh, id, fp) && after.similar == db.similar
    ensures after == Finalized(db, id, fp, hits, ids)
  {
  }

  lemma FinalizedKeeps(db: Db, id: Id, fp: Fingerprint, hits: Hits, ids: set<Id>)
    requires I.DocsOk(db) && id in db.sources && id !in hits
    requires {db.sources[id].doc} + DocsOf(hits) <= ids
    ensures var after := Finalized(db, id, fp, hits, ids);
            && I.DocsOk(after) && id in after.sources && after.docs.Keys == db.docs.Keys
            && (forall d :: d in db.docs && d !in ids ==> after.docs[d] == db.docs[d])
  {
  }

  // ----- search results as lists -----

  function Listed(hits: Hits, rows: seq<Id>): Hits {
    map y | y in hits && y in rows :: hits[y]
  }

  lemma RowNext(hits: Hits, rows: seq<Id>, i: nat, ms: seq<Match>)
    requires Ascending(rows) && i < |rows| && Distinct(ms) && Index(ms) == Listed(hits, rows[..i])
    ensures rows[i] !in hits ==> Listed(hits, rows[..i + 1]) == Index(ms)
    ensures rows[i] in hits ==>
              var more := ms + [Match(rows[i], hits[rows[i]])];
              Distinct(more) && Index(more) == Listed(hits, rows[..i + 1])
  {
    assert rows[..i + 1] == rows[..i] + [rows[i]];
    if rows[i] in hits {
      var m := Match(rows[i], hits[rows[i]]);
      forall k | 0 <= k < |ms|
        ensures ms[k].source != m.source
      {
        IndexAt(ms, k);
      }
      IndexAppend(ms, m);
      assert Listed(hits, rows[..i + 1]) == Listed(hits, rows[..i])[m.source := m.hit];
    }
  }

  lemma AllListed(hits: Hits, rows: seq<Id>)
    requires forall y :: y in hits ==> y in rows
    ensures Listed(hits, rows[..|rows|]) == hits
  {
  }

  // ----- new files -----

  datatype NewFile = NewFile(id: Id, uploaded: int)

  function Files(fs: seq<NewFile>): map<Id, int> {
    if fs == [] then map[] else Files(fs[..|fs| - 1])[fs[|fs| - 1].id := fs[|fs| - 1].uploaded]
  }

  predicate FreshIds(fs: seq<NewFile>) {
    forall i, j :: 0 <= i < j < |fs| ==> fs[i].id != fs[j].id
  }

  lemma {:induction false} FileKeys(fs: seq<NewFile>, f: Id)
    ensures f in Files(fs) <==> exists k :: 0 <= k < |fs| && fs[k].id == f
  {
    if fs != [] {
      var front, last := fs[..|fs| - 1], fs[|fs| - 1];
      FileKeys(front, f);
      if f in Files(front) {
        var k :| 0 <= k < |front| && front[k].id == f;
        assert fs[k].id == f;
      } else if f == last.id {
        assert fs[|fs| - 1].id == f;
      } else if k :| 0 <= k < |fs| && fs[k].id == f {
        assert front[k].id == f;
      }
    }
  }

  lemma {:induction false} FilesCount(fs: seq<NewFile>)
    requires FreshIds(fs)
    ensures |Files(fs)| == |fs|
  {
    if fs != [] {
      var front, last := fs[..|fs| - 1], fs[|fs| - 1];
      FilesCount(front);
      FileKeys(front, last.id);
      assert Files(fs).Keys == Files(front).Keys + {last.id};
      assert |Files(fs).Keys| == |Files(fs)| && |Files(front).Keys| == |Files(front)|;
    }
  }

  /** The rows that the first i files add clash with nothing. */
  lemma NoClash(fs: seq<NewFile>, sources: map<Id, Source>)
    requires forall k :: 0 <= k < |fs| ==> fs[k].id !in sources
    ensures forall f :: f in Files(fs) ==> f !in sources
  {
  }

  lemma FilesNext(fs: seq<NewFile>, i: nat)
    requires i < |fs|
    ensures Files(fs[..i + 1]) == Files(fs[..i])[fs[i].id := fs[i].uploaded]
  {
    assert fs[..i + 1][..i] == fs[..i];
  }

  lemma NewSourcesNext(d: Id, files: map<Id, int>, f: NewFile)
    ensures NewSources(d, files[f.id := f.uploaded]) ==
            NewSources(d, files)[f.id := Source(d, f.uploaded, None, Unique, None, true)]
  {
  }

  /** What a finalisation reports to its caller. */
  datatype FinalizeResult = FinalizeResult(uniqueness: Option<Role>, touched: seq<Id>, notified: seq<Id>)

  class Repo {
    var docs: map<Id, Document>
    var sources: map<Id, Source>
    var pairs: map<(Id, Id), Pair>
    var lsh: set<LshRow>
    var similar: map<(Id, Id), real>

    function State(): Db
      reads this
    {
      Db(docs, sources, pairs, lsh, similar)
    }

    /** Every source belongs to a document: the foreign key of the sources table. */
    ghost predicate Valid()
      reads this
    {
      I.DocsOk(State())
    }

    constructor ()
      ensures Valid() && State() == EMPTY
    {
      docs, sources, pairs, lsh, similar := map[], map[], map[], {}, map[];
    }

    // ----- searches -----

    method QueryExact(except: Id, sha: string) returns (ms: seq<Match>)
      ensures Distinct(ms) && Index(ms) == ExactHits(State(), except, sha)
    {
      ghost var hits := ExactHits(State(), except, sha);
      var rows := SortedUuids(set y | y in sources && Hashed(State(), y) && y != except && FpOf(State(), y).sha == sha);
      ms := [];
      for i := 0 to |rows|
        invariant Distinct(ms) && Index(ms) == Listed(hits, rows[..i])
      {
        RowNext(hits, rows, i, ms);
        var s := sources[rows[i]];
        ms := ms + [Match(rows[i], Hit(100.0, Exact, 0, s.doc, s.uploaded))];
      }
      AllListed(hits, rows);
    }

    method QueryTextExact(except: Id, norm: string) returns (ms: seq<Match>)
      ensures Distinct(ms) && Index(ms) == TextHits(State(), except, norm)
    {
      ghost var hits := TextHits(State(), except, norm);
      var rows := SortedUuids(set y | y in sources && Hashed(State(), y) && y != except && FpOf(State(), y).textNorm == norm);
      ms := [];
      for i := 0 to |rows|
        invariant Distinct(ms) && Index(ms) == Listed(hits, rows[..i])
      {
        RowNext(hits, rows, i, ms);
        var s := sources[rows[i]];
        ms := ms + [Match(rows[i], Hit(99.5, Text, s.fp.value.pages, s.doc, s.uploaded))];
      }
      AllListed(hits, rows);
    }

    /** The band lookup of the index, then the distance filter over its rows. */
    method QueryLsh(except: Id, hash: HashKind, value: uint64, maxDist: int) returns (ms: seq<Match>)
      ensures Distinct(ms) && Index(ms) == NearHits(State(), except, hash, value, maxDist)
    {
      ms := [];
      if value == 0 {
        return;
      }
      ghost var hits := NearHits(State(), except, hash, value, maxDist);
      var rows := SortedUuids(set y | y in sources && Hashed(State(), y) && y != except && SharesBucket(State(), y, hash, value));
      for i := 0 to |rows|
        invariant Distinct(ms) && Index(ms) == Listed(hits, rows[..i])
      {
        RowNext(hits, rows, i, ms);
        assert rows[i] in rows;
        var s := sources[rows[i]];
        var raw := StoredHash(s.fp.value, hash);
        if raw == 0 {
          continue;
        }
        var dist := Hamming(value, raw);
        if dist > maxDist {
          continue;
        }
        ms := ms + [Match(rows[i], Hit(ScoreFromDistance(dist, 64), if hash.Sim? then Text else Visual,
                                       s.fp.value.pages, s.doc, s.uploaded))];
      }
      AllListed(hits, rows);
    }

    /** All searches of a finalisation, merged. */
    method FindMatches(id: Id, fp: Fingerprint) returns (ms: seq<Match>)
      ensures Distinct(ms) && Index(ms) == Candidates(State(), id, fp)
    {
      var exact := QueryExact(id, fp.sha);
      ms := MergeMatches([], exact);
      MergeAllIsMerge(map[], exact);
      if fp.hasText && fp.textNorm != "" {
        var text := QueryTextExact(id, fp.textNorm);
        MergeAllIsMerge(Index(ms), text);
        ms := MergeMatches(ms, text);
        var near := QueryLsh(id, Sim, fp.simHash, SIM_HASH_MAX_DIST);
        MergeAllIsMerge(Index(ms), near);
        ms := MergeMatches(ms, near);
      } else if fp.hasVisual && fp.pHash != 0 {
        var near := QueryLsh(id, Perceptual, fp.pHash, P_HASH_MAX_DIST);
        MergeAllIsMerge(Index(ms), near);
        ms := MergeMatches(ms, near);
      }
      MergeEmpty(ExactHits(State(), id, fp.sha));
    }

    // ----- finalising a fingerprint -----

    method AddBuckets(id: Id, hash: HashKind, value: uint64)
      modifies this`lsh
      ensures lsh == old(lsh) + HashRows(id, hash, value)
    {
      if value == 0 {
        return;
      }
      var bands := Bands(value);
      for i := 0 to |bands|
        invariant lsh == old(lsh) + set k | 0 <= k < i :: LshRow(id, hash, k, Bands(value)[k])
      {
        lsh := lsh + {LshRow(id, hash, i, bands[i])};
      }
    }

    method ReplaceLsh(id: Id, fp: Fingerprint)
      modifies this`lsh
      ensures lsh == FinalLsh(old(lsh), id, fp)
    {
      lsh := set r | r in lsh && r.source != id;
      if fp.hasText {
        AddBuckets(id, Sim, fp.simHash);
      } else if fp.hasVisual {
        AddBuckets(id, Perceptual, fp.pHash);
      }
    }

    /** Inserts a pair, or raises the score of the one that is there. */
    method InsertDup(a: Id, b: Id, score: real, kind: Kind)
      modifies this`pairs
      ensures pairs == Upserted(old(pairs), (a, b), score, kind)
      ensures pairs.Keys == old(pairs).Keys + {(a, b)}
      ensures forall k :: k in old(pairs) && k != (a, b) ==> pairs[k] == old(pairs)[k]
      ensures pairs[(a, b)].score >= score && ((a, b) in old(pairs) ==> pairs[(a, b)].score >= old(pairs)[(a, b)].score)
      ensures pairs[(a, b)] == if (a, b) in old(pairs) && score < old(pairs)[(a, b)].score
                               then old(pairs)[(a, b)] else Pair(score, kind)
    {
      if (a, b) in pairs {
        var p := pairs[(a, b)];
        pairs := pairs[(a, b) := Pair(if score > p.score then score else p.score,
                                      if score >= p.score then kind else p.kind)];
      } else {
        pairs := pairs[(a, b) := Pair(score, kind)];
      }
    }

    /** One match: its role against the new source, its score, and both pairs. */
    method WriteMatch(id: Id, at: int, m: Match)
      requires m.source in sources
      modifies this`sources, this`pairs
      ensures sources == old(sources)[m.source :=
                Promoted(old(sources)[m.source],
                         if UploadedFirst(m.source, m.hit.uploaded, id, at) then Original else Duplicate, m.hit.score)]
      ensures pairs == Upserted(Upserted(old(pairs), (id, m.source), m.hit.score, m.hit.kind),
                                (m.source, id), m.hit.score, m.hit.kind)
    {
      var matchRole := Duplicate;
      if UploadedFirst(m.source, m.hit.uploaded, id, at) {
        matchRole := Original;
      }
      sources := sources[m.source := Promoted(sources[m.source], matchRole, m.hit.score)];
      InsertDup(id, m.source, m.hit.score, m.hit.kind);
      InsertDup(m.source, id, m.hit.score, m.hit.kind);
    }

    /** All matches, on top of the new source's own row. */
    method WriteMatches(id: Id, at: int, ms: seq<Match>)
      requires id in sources && Distinct(ms) && id !in Index(ms) && Index(ms).Keys <= sources.Keys
      modifies this`sources, this`pairs
      ensures pairs == FinalPairs(old(pairs), id, Index(ms))
      ensures sources == Promotions(old(sources), id, at, Index(ms))
    {
      for i := 0 to |ms|
        invariant id !in Index(ms[..i])
        invariant sources == Promotions(old(sources), id, at, Index(ms[..i]))
        invariant pairs == FinalPairs(old(pairs), id, Index(ms[..i]))
      {
        IndexAt(ms, i);
        KeepNext(ms, i, []);
        PromotionsNext(old(sources), id, at, Index(ms[..i]), ms[i]);
        PairsNext(old(pairs), id, Index(ms[..i]), ms[i]);
        WriteMatch(id, at, ms[i]);
      }
      assert ms[..|ms|] == ms;
    }

    /** The role and score of the new source, then those of its matches and the pairs. */
    method WriteRoles(id: Id, ms: seq<Match>) returns (role: Role)
      requires id in sources && Distinct(ms) && id !in Index(ms) && Index(ms).Keys <= sources.Keys
      modifies this`sources, this`pairs
      ensures role == RoleAgainst(id, old(sources)[id].uploaded, Index(ms))
      ensures pairs == FinalPairs(old(pairs), id, Index(ms))
      ensures sources == Promotions(old(sources)[id := OwnRow(old(sources)[id], id, Index(ms))], id,
                                    old(sources)[id].uploaded, Index(ms))
    {
      if |ms| == 0 {
        role := Unique;
        NoPairs(pairs, id);
        sources := sources[id := sources[id].(role := Unique, score := None)];
        return;
      }
      IndexAt(ms, 0);
      var best := Best(ms);
      BestIsUnique(Index(ms), best, BestScore(Index(ms)));
      role := SourceRole(id, sources[id].uploaded, ms);
      sources := sources[id := sources[id].(role := role, score := Some(best))];
      WriteMatches(id, sources[id].uploaded, ms);
    }

    /** Only a duplicate of an untrusted owner is held back. */
    method Release(id: Id)
      requires id in sources && sources[id].doc in docs
      modifies this`sources
      ensures sources == old(sources)[id := old(sources)[id].(
                             released := docs[old(sources)[id].doc].trusted || old(sources)[id].role != Duplicate)]
    {
      var s := sources[id];
      var released := s.released;
      if docs[s.doc].trusted {
        released := true;
      } else if s.role == Unique || s.role == Original {
        released := true;
      } else if s.role == Duplicate {
        released := false;
      }
      sources := sources[id := s.(released := released)];
    }

    /** The status update of the touched documents, then the notification update. */
    method SettleDocuments(ids: seq<Id>) returns (notified: seq<Id>)
      modifies this`docs
      ensures docs == SettledDocs(old(docs), sources, AsSet(ids))
      ensures Ascending(notified) && docs.Keys == old(docs).Keys
      ensures forall d :: d in notified <==> d in ids && d in docs && !old(docs)[d].notified && docs[d].status != Processing
      ensures forall d :: d in docs ==> (docs[d].notified <==> old(docs)[d].notified || d in notified)
    {
      docs := map d | d in docs ::
        if d in ids && docs[d].status != Rejected then docs[d].(status := Derived(sources, d)) else docs[d];
      notified := SortedUuids(set d | d in docs && d in ids && !docs[d].notified && docs[d].status != Processing);
      docs := map d | d in docs :: if d in notified then docs[d].(notified := true) else docs[d];
    }

    /** The fingerprint, its index rows, all roles and pairs, and the release flag. */
    method WriteSource(id: Id, fp: Fingerprint, ms: seq<Match>)
      requires id in sources && sources[id].doc in docs
      requires Distinct(ms) && id !in Index(ms) && Index(ms).Keys <= sources.Keys
      modifies this`sources, this`pairs, this`lsh
      ensures sources == FinalSources(old(State()), id, fp, Index(ms))
      ensures pairs == FinalPairs(old(pairs), id, Index(ms))
      ensures lsh == FinalLsh(old(lsh), id, fp)
    {
      sources := sources[id := sources[id].(fp := Some(fp))];
      ReplaceLsh(id, fp);
      var _ := WriteRoles(id, ms);
      Release(id);
      FinalRows(old(State()), id, fp, Index(ms), sources);
    }

    /** Everything a finalisation writes once its matches are settled. */
    method WriteFinal(id: Id, fp: Fingerprint, ms: seq<Match>, ids: seq<Id>) returns (notified: seq<Id>)
      requires id in sources && sources[id].doc in docs
      requires Distinct(ms) && id !in Index(ms) && Index(ms).Keys <= sources.Keys
      modifies this
      ensures State() == Finalized(old(State()), id, fp, Index(ms), AsSet(ids))
      ensures docs.Keys == old(docs).Keys
      ensures forall d :: d in notified <==> d in ids && d in docs && !old(docs)[d].notified && docs[d].status != Processing
      ensures forall d :: d in docs ==> (docs[d].notified <==> old(docs)[d].notified || d in notified)
    {
      assert sources[id].doc in docs;
      WriteSource(id, fp, ms);
      notified := SettleDocuments(ids);
      FinalizedParts(old(State()), id, fp, Index(ms), AsSet(ids), State());
    }

    /** The documents of a source and of its matches, in ascending order. */
    method TouchedDocuments(doc: Id, ms: seq<Match>) returns (ids: seq<Id>)
      requires Distinct(ms)
      ensures Ascending(ids) && forall d :: d in ids <==> d in {doc} + DocsOf(Index(ms))
    {
      var touched := {doc};
      for i := 0 to |ms|
        invariant touched == {doc} + DocsOf(Index(ms[..i]))
      {
        DocsNext(ms, i);
        touched := touched + {ms[i].hit.doc};
      }
      assert ms[..|ms|] == ms;
      ids := SortedUuids(touched);
    }

    /** The whole transaction, run on its own. */
    method FinalizeFingerprint(id: Id, fp: Fingerprint) returns (outcome: Outcome, result: FinalizeResult)
      requires Valid()
      modifies this
      ensures Valid() && State() == Finalize(old(State()), id, fp, {})
      ensures outcome == if fp.sha != "" && id !in old(sources) then NotFound else Done
      ensures Ascending(result.touched)
      ensures if fp.sha == "" || id !in old(sources) then result.uniqueness.None?
              else id in sources && result.uniqueness == Some(sources[id].role)
      ensures AsSet(result.touched) ==
              if fp.sha == "" || id !in old(sources) || old(sources)[id].fp.Some? then {}
              else {old(sources)[id].doc} + DocsOf(Candidates(old(State()), id, fp))
      ensures docs.Keys == old(docs).Keys
      ensures forall d :: d in result.notified <==>
                            d in result.touched && d in docs && !old(docs)[d].notified && docs[d].status != Processing
      ensures forall d :: d in docs ==> (docs[d].notified <==> old(docs)[d].notified || d in result.notified)
    {
      outcome, result := Done, FinalizeResult(None, [], []);
      if fp.sha == "" {
        return;
      }
      if id !in sources {
        outcome := NotFound;
        return;
      }
      var matches := FindMatches(id, fp);
      var ids := TouchedDocuments(sources[id].doc, matches);
      if sources[id].fp.Some? {
        result := result.(uniqueness := Some(sources[id].role));
        return;
      }
      AllLiving(State(), id, fp);
      matches := LivingMatches(matches, sources.Keys);
      matches := ConfidentMatches(fp, matches);
      assert AsSet(ids) == {sources[id].doc} + DocsOf(Candidates(State(), id, fp)) + {};
      var notified := WriteFinal(id, fp, matches, ids);
      FinalizedKeeps(old(State()), id, fp, Index(matches), AsSet(ids));
      result := FinalizeResult(Some(sources[id].role), ids, notified);
    }

    // ----- the other transactions -----

    /** Undoes everything since the given state. */
    method Rollback(before: Db)
      modifies this
      ensures State() == before
    {
      docs, sources, pairs, lsh, similar := before.docs, before.sources, before.pairs, before.lsh, before.similar;
    }

    /** Inserts the rows of new files, until one clashes with an existing id. */
    method InsertRows(d: Id, files: seq<NewFile>) returns (ok: bool)
      requires FreshIds(files)
      modifies this`sources
      ensures ok <==> !exists f :: f in Files(files) && f in old(sources)
      ensures ok ==> sources == old(sources) + NewSources(d, Files(files))
    {
      for i := 0 to |files|
        invariant forall k :: 0 <= k < i ==> files[k].id !in old(sources)
        invariant sources == old(sources) + NewSources(d, Files(files[..i]))
      {
        FilesNext(files, i);
        NewSourcesNext(d, Files(files[..i]), files[i]);
        FileKeys(files[..i], files[i].id);
        if files[i].id in sources {
          FileKeys(files, files[i].id);
          return false;
        }
        sources := sources[files[i].id := Source(d, files[i].uploaded, None, Unique, None, true)];
      }
      assert files[..|files|] == files;
      NoClash(files, old(sources));
      ok := true;
    }

    method InsertDocument(d: Id, erp: string, trusted: bool, review: string, files: seq<NewFile>) returns (outcome: Outcome)
      requires Valid() && FreshIds(files)
      modifies this
      ensures Valid()
      ensures outcome == if d in old(docs) || exists e :: e in old(docs) && old(docs)[e].erp == erp then ErpTaken
                         else if exists f :: f in Files(files) && f in old(sources) then Conflict
                         else Done
      ensures State() == if outcome != Done then old(State())
                         else old(State()).(docs := old(docs)[d := Document(erp, trusted, Processing, false, review)],
                                            sources := old(sources) + NewSources(d, Files(files)))
    {
      if d in docs || exists e :: e in docs && docs[e].erp == erp {
        return ErpTaken;
      }
      var before := State();
      docs := docs[d := Document(erp, trusted, Processing, false, review)];
      var ok := InsertRows(d, files);
      if ok {
        return Done;
      }
      Rollback(before);
      outcome := Conflict;
    }

    /** Creating a document: the limits, its review note, and the insertion. */
    method Create(d: Id, erp: string, trusted: bool, files: seq<NewFile>, maxSources: int, notes: seq<string>, note: string)
      returns (outcome: Outcome)
      requires Valid() && FreshIds(files)
      modifies this
      ensures Valid()
      ensures Reply(outcome, State()) ==
              Tables.Create(old(State()), d, erp, trusted, Files(files), maxSources,
                            if N.Log(notes) != "" then notes else [N.Clamp(note)])
    {
      FilesCount(files);
      if |files| == 0 {
        return NoFiles;
      }
      if |files| > maxSources {
        return TooMany;
      }
      var review := N.ClampNote(note);
      var joined := N.MergeNoteLog(notes);
      if joined != "" {
        review := joined;
      }
      N.ClampSettled(note);
      outcome := InsertDocument(d, erp, trusted, review, files);
    }

    method InsertSources(d: Id, files: seq<NewFile>, maxSources: int, note: string) returns (outcome: Outcome)
      requires Valid() && FreshIds(files)
      modifies this
      ensures Valid()
      ensures Reply(outcome, State()) == Tables.InsertSources(old(State()), d, Files(files), maxSources, note)
    {
      FilesCount(files);
      var most := if maxSources < 1 then 4 else maxSources;
      var clamped := N.ClampNote(note);
      if d !in docs {
        return NotFound;
      }
      if |SourcesOf(State(), d)| + |files| > most {
        return TooMany;
      }
      var before := State();
      var ok := InsertRows(d, files);
      if !ok {
        Rollback(before);
        return Conflict;
      }
      MarkProcessing(d, clamped);
      outcome := Done;
    }

    /** The document update of an insertion: processing again, to be reported again, and
        its note extended. */
    method MarkProcessing(d: Id, note: string)
      requires d in docs
      modifies this`docs
      ensures var doc, merged := old(docs)[d], N.Log([old(docs)[d].note, note]);
              docs == old(docs)[d := doc.(status := Processing, notified := false,
                                          note := if merged != "" then merged else doc.note)]
    {
      var doc := docs[d];
      var merged := N.MergeReviewNote(doc.note, note);
      if merged != "" {
        docs := docs[d := doc.(status := Processing, notified := false, note := merged)];
      } else {
        docs := docs[d := doc.(status := Processing, notified := false)];
      }
    }

    /** Adding files: the service's checks, then the insertion. */
    method AddSources(d: Id, files: seq<NewFile>, maxSources: int, note: string) returns (outcome: Outcome)
      requires Valid() && FreshIds(files)
      modifies this
      ensures Valid()
      ensures Reply(outcome, State()) == Tables.AddSources(old(State()), d, Files(files), maxSources, note)
    {
      FilesCount(files);
      if d !in docs {
        return NotFound;
      }
      if |files| == 0 {
        return NoFiles;
      }
      if |files| > maxSources || |SourcesOf(State(), d)| + |files| > maxSources {
        return TooMany;
      }
      outcome := InsertSources(d, files, maxSources, note);
    }

    method Approve(d: Id) returns (outcome: Outcome)
      requires Valid()
      modifies this
      ensures Valid()
      ensures Reply(outcome, State()) == Tables.Approve(old(State()), d)
      ensures outcome == if d !in old(docs) then NotFound else if old(docs)[d].status != PendingReview then Invalid else Done
      ensures outcome != Done ==> State() == old(State())
      ensures outcome == Done ==>
                && E.OnlyDoc(old(State()), State(), d) && E.OnlyReleased(old(State()), State(), d)
                && d in docs && !docs[d].notified && docs[d].status != PendingReview
    {
      E.ApproveEffect(State(), d);
      if d !in docs {
        return NotFound;
      }
      if docs[d].status != PendingReview {
        return Invalid;
      }
      sources := map s | s in sources :: if sources[s].doc == d then sources[s].(released := true) else sources[s];
      var status := Completed;
      if HasUnhashed(sources, d) {
        status := Processing;
      } else if HasGrouped(sources, d) {
        status := Grouped;
      }
      docs := docs[d := docs[d].(status := status, notified := false)];
      outcome := Done;
    }

    /** Deletes source rows; the foreign keys delete what refers to them. */
    method DeleteSources(gone: set<Id>)
      modifies this`sources, this`pairs, this`lsh, this`similar
      ensures State() == Tables.Without(old(State()), gone)
    {
      sources := map s | s in sources && s !in gone :: sources[s];
      pairs := map k | k in pairs && k.0 !in gone && k.1 !in gone :: pairs[k];
      lsh := set r | r in lsh && r.source !in gone;
      similar := map k | k in similar && k.0 !in gone && k.1 !in gone :: similar[k];
    }

    method RejectPending(d: Id) returns (outcome: Outcome)
      requires Valid()
      modifies this
      ensures Valid()
      ensures Reply(outcome, State()) == Tables.RejectPending(old(State()), d)
      ensures outcome == if d !in old(docs) then NotFound else if old(docs)[d].status != PendingReview then Invalid else Done
      ensures outcome != Done ==> State() == old(State())
      ensures outcome == Done ==>
                && E.OnlyDoc(old(State()), State(), d) && E.OnlyRemoved(old(State()), State(), d)
                && d in docs && docs[d] == old(docs)[d].(status := Rejected)
    {
      E.RejectEffect(State(), d);
      if d !in docs {
        return NotFound;
      }
      if docs[d].status != PendingReview {
        return Invalid;
      }
      DeleteSources(SourcesOf(State(), d));
      docs := docs[d := docs[d].(status := Rejected)];
      outcome := Done;
    }

    method Delete(d: Id) returns (outcome: Outcome)
      requires Valid()
      modifies this
      ensures Valid()
      ensures Reply(outcome, State()) == Tables.Delete(old(State()), d)
      ensures outcome == if d !in old(docs) then NotFound else Done
      ensures outcome != Done ==> State() == old(State())
      ensures outcome == Done ==>
                E.OnlyDoc(old(State()), State(), d) && E.OnlyRemoved(old(State()), State(), d) && d !in docs
    {
      E.DeleteEffect(State(), d);
      if d !in docs {
        return NotFound;
      }
      DeleteSources(SourcesOf(State(), d));
      docs := docs - {d};
      outcome := Done;
    }

    /** Replaces the title similarities of a source, each hit in both directions. */
    method ReplaceSimilar(id: Id, hits: seq<SimilarHit>) returns (outcome: Outcome)
      modifies this
      ensures Reply(outcome, State()) == Tables.ReplaceSimilar(old(State()), id, hits)
    {
      var before := State();
      var kept := if |hits| > MAX_SIMILAR_KEPT then hits[..MAX_SIMILAR_KEPT] else hits;
      similar := map k | k in similar && k.0 != id && k.1 != id :: similar[k];
      for i := 0 to |kept|
        invariant State() == before.(similar := WrittenSimilar(Others(before.similar, id), id, kept[..i]))
        invariant forall k :: 0 <= k < i ==> !Violates(before, id, kept[k])
      {
        var hit := kept[i];
        assert kept[..i + 1][..i] == kept[..i];
        if hit.matched == NIL || hit.matched == id {
          continue;
        }
        if Violates(before, id, hit) {
          Rollback(before);
          return Conflict;
        }
        similar := similar[(id, hit.matched) := hit.score];
        similar := similar[(hit.matched, id) := hit.score];
      }
      assert kept[..|kept|] == kept;
      outcome := Done;
    }
  }
}
