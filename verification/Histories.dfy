/** Properties that compare different moments of a run: review holds, notifications,
    source limits and review notes. */
module Histories {
  import opened Fingerprints
  import opened Invariants
  import opened Options
  import opened Preservation
  import opened Runs
  import opened Searches
  import opened Sequences
  import opened Tables
  import N = Notes

  lemma RunAppend(acts: seq<Action>, a: Action)
    ensures Run(acts + [a]) == Do(Run(acts), a)
  {
  }

  // ----- held for review -----

  /** Some earlier-uploaded finalised source matches this fingerprint. */
  ghost predicate EarlierMatch(db: Db, id: Id, fp: Fingerprint)
    requires id in db.sources
  {
    exists y: Id :: Hashed(db, y) && y != id && Link(fp, FpOf(db, y)).Some? && Before(db, y, id)
  }

  lemma DuplicateMeansEarlier(db: Db, id: Id, fp: Fingerprint)
    requires id in db.sources
    ensures RoleAgainst(id, db.sources[id].uploaded, Linked(db, id, fp)) == Duplicate <==> EarlierMatch(db, id, fp)
  {
    var hits, at := Linked(db, id, fp), db.sources[id].uploaded;
    forall y: Id
      ensures y in hits && !UploadedFirst(id, at, y, hits[y].uploaded) <==>
              Hashed(db, y) && y != id && Link(fp, FpOf(db, y)).Some? && Before(db, y, id)
    {
      if y in hits {
        UploadOrder(id, at, y, hits[y].uploaded);
      }
    }
  }

  /** Finalising changes no document's identity, owner or note, no source's document,
      and no other source's release flag. */
  lemma HashFrame(db: Db, id: Id, fp: Fingerprint, extra: set<Id>)
    ensures var after := Finalize(db, id, fp, extra);
            && after.docs.Keys == db.docs.Keys && after.sources.Keys == db.sources.Keys
            && (forall d :: d in db.docs ==> after.docs[d].note == db.docs[d].note && after.docs[d].trusted == db.docs[d].trusted)
            && (forall s :: s in db.sources ==> after.sources[s].doc == db.sources[s].doc)
            && (forall s :: s in db.sources && (s != id || Hashed(db, id)) ==>
                              after.sources[s].released == db.sources[s].released
                              && after.sources[s].fp == db.sources[s].fp)
  {
    if !(fp.sha == "" || id !in db.sources || db.sources[id].fp.Some? || db.sources[id].doc !in db.docs) {
      var candidates := Candidates(db, id, fp);
      FinalFrame(db, id, fp, Confident(fp, candidates), {db.sources[id].doc} + DocsOf(candidates) + extra);
    }
  }

  /** A finalisation that writes fills in its own fingerprint and touches no other. */
  lemma HashExtends(db: Db, id: Id, fp: Fingerprint, extra: set<Id>)
    requires fp.sha != "" && id in db.sources && db.sources[id].fp.None? && db.sources[id].doc in db.docs
    ensures Extends(db, Finalize(db, id, fp, extra), id, fp)
  {
    var candidates := Candidates(db, id, fp);
    FinalFrame(db, id, fp, Confident(fp, candidates), {db.sources[id].doc} + DocsOf(candidates) + extra);
  }

  /** Finalising holds a source back exactly when its owner is not trusted and an
      earlier-uploaded match was finalised before it. */
  lemma HeldAtFinalize(db: Db, id: Id, fp: Fingerprint, extra: set<Id>)
    requires DocsOk(db) && FpsOk(db) && LshOk(db)
    requires WellFormed(fp) && fp.sha != "" && id in db.sources && db.sources[id].fp.None?
    ensures var after := Finalize(db, id, fp, extra);
            && Hashed(after, id) && after.sources[id].doc == db.sources[id].doc
            && (IsHeld(after.sources[id]) <==> !db.docs[db.sources[id].doc].trusted && EarlierMatch(db, id, fp))
  {
    FinalizeIsFinal(db, id, fp, extra);
    DuplicateMeansEarlier(db, id, fp);
  }

  /** Approval or removal of the given document. */
  predicate Decides(a: Action, d: Id) {
    match a
    case Accept(e) => e == d
    case Decline(e) => e == d
    case Remove(e) => e == d
    case _ => false
  }

  /** The same finalised source, held or not as before. */
  ghost predicate SameHold(db: Db, after: Db, x: Id) {
    && Hashed(db, x) && Hashed(after, x)
    && after.sources[x].doc == db.sources[x].doc
    && after.sources[x].released == db.sources[x].released
  }

  /** No step of any transaction lifts or imposes a hold, except a decision on the
      source's own document. */
  lemma HoldStep(db: Db, a: Action, x: Id)
    requires Hashed(db, x) && !Decides(a, db.sources[x].doc)
    ensures SameHold(db, Do(db, a), x)
  {
    match a
    case Hash(id, fp, extra) => HashFrame(db, id, fp, extra);
    case Accept(d) => ReleaseFrame(db.sources, d);
    case _ =>
  }

  lemma {:induction false} HoldRun(pre: seq<Action>, post: seq<Action>, x: Id)
    requires Hashed(Run(pre), x)
    requires forall i :: 0 <= i < |post| ==> !Decides(post[i], Run(pre).sources[x].doc)
    ensures SameHold(Run(pre), Run(pre + post), x)
    decreases |post|
  {
    if post == [] {
      assert pre + post == pre;
    } else {
      var front := post[..|post| - 1];
      HoldRun(pre, front, x);
      SplitLast(pre, post);
      HoldStep(Run(pre + front), post[|post| - 1], x);
    }
  }

  lemma HeldIsUnreleased(db: Db, x: Id)
    requires HeldOk(db) && x in db.sources
    ensures IsHeld(db.sources[x]) <==> !db.sources[x].released
  {
  }

  /** A source just finalised is held exactly when its owner is not trusted and an earlier
      match had been finalised before it. */
  ghost predicate HeldRightly(before: Db, now: Db, id: Id, fp: Fingerprint) {
    && id in before.sources && before.sources[id].doc in before.docs
    && Hashed(now, id) && now.sources[id].doc == before.sources[id].doc
    && (IsHeld(now.sources[id]) <==> !before.docs[before.sources[id].doc].trusted && EarlierMatch(before, id, fp))
  }

  lemma HeldAfter(pre: seq<Action>, id: Id, fp: Fingerprint, extra: set<Id>)
    requires AllFormed(pre) && WellFormed(fp) && fp.sha != ""
    requires id in Run(pre).sources && Run(pre).sources[id].fp.None?
    ensures HeldRightly(Run(pre), Run(pre + [Hash(id, fp, extra)]), id, fp)
  {
    RunInv(pre);
    HeldAtHash(Run(pre), id, fp, extra);
    RunAppend(pre, Hash(id, fp, extra));
  }

  lemma HeldAtHash(db: Db, id: Id, fp: Fingerprint, extra: set<Id>)
    requires DocsOk(db) && FpsOk(db) && LshOk(db)
    requires WellFormed(fp) && fp.sha != "" && id in db.sources && db.sources[id].fp.None?
    ensures HeldRightly(db, Do(db, Hash(id, fp, extra)), id, fp)
  {
    HeldAtFinalize(db, id, fp, extra);
  }

  lemma FormedParts(pre: seq<Action>, a: Action, post: seq<Action>)
    requires AllFormed(pre + [a] + post)
    ensures AllFormed(pre) && Formed(a) && AllFormed(pre + [a])
  {
    var all := pre + [a] + post;
    assert forall i :: 0 <= i < |pre| ==> pre[i] == all[i];
    assert all[|pre|] == a;
  }

  /** From its finalisation until a decision on its document, a source is held exactly
      when its owner is not trusted and an earlier match had been finalised before it. */
  lemma HeldExactly(pre: seq<Action>, id: Id, fp: Fingerprint, extra: set<Id>, post: seq<Action>)
    requires AllFormed(pre + [Hash(id, fp, extra)] + post)
    requires fp.sha != "" && id in Run(pre).sources && Run(pre).sources[id].fp.None?
    requires forall i :: 0 <= i < |post| ==> !Decides(post[i], Run(pre).sources[id].doc)
    ensures var before, now := Run(pre), Run(pre + [Hash(id, fp, extra)] + post);
            && Hashed(now, id) && before.sources[id].doc in before.docs
            && (IsHeld(now.sources[id]) <==>
                  !before.docs[before.sources[id].doc].trusted && EarlierMatch(before, id, fp))
  {
    var upTo := pre + [Hash(id, fp, extra)];
    FormedParts(pre, Hash(id, fp, extra), post);
    HeldAfter(pre, id, fp, extra);
    HoldRun(upTo, post, id);
    SameHeld(upTo, post, id);
  }

  lemma SameHeld(pre: seq<Action>, post: seq<Action>, x: Id)
    requires AllFormed(pre) && AllFormed(pre + post) && SameHold(Run(pre), Run(pre + post), x)
    ensures IsHeld(Run(pre).sources[x]) <==> IsHeld(Run(pre + post).sources[x])
  {
    RunInv(pre);
    RunInv(pre + post);
    HeldIsUnreleased(Run(pre), x);
    HeldIsUnreleased(Run(pre + post), x);
  }

  // ----- notifications -----

  /** A finalisation reports d: its notification mark goes from unset to set. */
  ghost predicate Reports(db: Db, a: Action, d: Id) {
    a.Hash? && d in db.docs && !db.docs[d].notified && d in Do(db, a).docs && Do(db, a).docs[d].notified
  }

  predicate Waiting(db: Db, d: Id) {
    d in db.docs && !db.docs[d].notified
  }

  /** An upload, an added file or an approval makes d wait for a report. */
  ghost predicate Arms(db: Db, a: Action, d: Id) {
    match a
    case Upload(e, erp, trusted, files, max, notes) =>
      e == d && Create(db, e, erp, trusted, files, max, notes).outcome == Done
    case Append(e, files, max, note) => e == d && AddSources(db, e, files, max, note).outcome == Done
    case Accept(e) => e == d && Approve(db, e).outcome == Done
    case _ => false
  }

  ghost function ReportCount(acts: seq<Action>, d: Id): nat {
    if acts == [] then 0
    else
      var front := acts[..|acts| - 1];
      ReportCount(front, d) + (if Reports(Run(front), acts[|acts| - 1], d) then 1 else 0)
  }

  ghost function ArmCount(acts: seq<Action>, d: Id): nat {
    if acts == [] then 0
    else
      var front := acts[..|acts| - 1];
      ArmCount(front, d) + (if Arms(Run(front), acts[|acts| - 1], d) then 1 else 0)
  }

  /** Only a document that is still processing waits to be reported. */
  ghost predicate WaitsProcessing(db: Db, d: Id) {
    Waiting(db, d) ==> db.docs[d].status == Processing
  }

  lemma FinalReports(db: Db, id: Id, fp: Fingerprint, hits: Hits, ids: set<Id>, d: Id)
    requires id in db.sources && db.sources[id].doc in db.docs && id !in hits && d in db.docs
    ensures var after := Finalized(db, id, fp, hits, ids);
            && d in after.docs
            && (after.docs[d].notified <==> db.docs[d].notified || (d in ids && after.docs[d].status != Processing))
            && (d !in ids ==> after.docs[d] == db.docs[d])
  {
  }

  lemma HashWaits(db: Db, id: Id, fp: Fingerprint, extra: set<Id>, d: Id)
    requires WaitsProcessing(db, d)
    ensures WaitsProcessing(Finalize(db, id, fp, extra), d)
  {
    if !(fp.sha == "" || id !in db.sources || db.sources[id].fp.Some? || db.sources[id].doc !in db.docs) && d in db.docs {
      var candidates := Candidates(db, id, fp);
      FinalReports(db, id, fp, Confident(fp, candidates), {db.sources[id].doc} + DocsOf(candidates) + extra, d);
    }
  }

  lemma StepWaitsProcessing(db: Db, a: Action, d: Id)
    requires WaitsProcessing(db, d) && a != Accept(d)
    ensures WaitsProcessing(Do(db, a), d)
  {
    match a
    case Hash(id, fp, extra) => HashWaits(db, id, fp, extra, d);
    case _ =>
  }

  /** What arms a document leaves it waiting, and nothing else does. Nothing but a report ends
      a wait, unless the document is deleted; and unless it is approved, a document that
      is not processing any more does not wait any more. */
  lemma WaitStep(db: Db, a: Action, d: Id)
    ensures Reports(db, a, d) ==> Waiting(db, d) && !Waiting(Do(db, a), d)
    ensures Waiting(Do(db, a), d) ==> Waiting(db, d) || Arms(db, a, d)
    ensures Arms(db, a, d) ==> Waiting(Do(db, a), d)
    ensures Reports(db, a, d) ==> Do(db, a).docs[d].status != Processing
    ensures Waiting(db, d) && !Waiting(Do(db, a), d) ==> Reports(db, a, d) || a == Remove(d)
    ensures WaitsProcessing(db, d) && a != Accept(d) ==> WaitsProcessing(Do(db, a), d)
  {
    WaitBegins(db, a, d);
    WaitEnds(db, a, d);
    if WaitsProcessing(db, d) && a != Accept(d) {
      StepWaitsProcessing(db, a, d);
    }
  }

  lemma WaitBegins(db: Db, a: Action, d: Id)
    ensures Waiting(Do(db, a), d) ==> Waiting(db, d) || Arms(db, a, d)
    ensures Arms(db, a, d) ==> Waiting(Do(db, a), d)
  {
  }

  lemma WaitEnds(db: Db, a: Action, d: Id)
    ensures Reports(db, a, d) ==> Waiting(db, d) && !Waiting(Do(db, a), d) && Do(db, a).docs[d].status != Processing
    ensures Waiting(db, d) && !Waiting(Do(db, a), d) ==> Reports(db, a, d) || a == Remove(d)
  {
  }

  /** A document is reported at most once for each time it was uploaded, extended or
      approved, and never while it is processing. */
  lemma {:induction false} ReportsArePaidFor(acts: seq<Action>, d: Id)
    ensures ReportCount(acts, d) + (if Waiting(Run(acts), d) then 1 else 0) <= ArmCount(acts, d)
  {
    if acts != [] {
      ReportsArePaidFor(acts[..|acts| - 1], d);
      WaitStep(Run(acts[..|acts| - 1]), acts[|acts| - 1], d);
    }
  }

  /** No step after the first few makes d wait again. */
  ghost predicate NeverArmed(pre: seq<Action>, post: seq<Action>, d: Id) {
    forall i :: 0 <= i < |post| ==> !Arms(Run(pre + post[..i]), post[i], d)
  }

  lemma NotArmedBefore(pre: seq<Action>, post: seq<Action>, d: Id)
    requires NeverArmed(pre, post, d) && post != []
    ensures NeverArmed(pre, post[..|post| - 1], d)
    ensures !Arms(Run(pre + post[..|post| - 1]), post[|post| - 1], d)
  {
    var front := post[..|post| - 1];
    forall i | 0 <= i < |front|
      ensures !Arms(Run(pre + front[..i]), front[i], d)
    {
      assert front[..i] == post[..i];
    }
  }

  /** As long as d is not uploaded, extended or approved again, every report uses up the
      wait it starts with, and a wait ends only by a report or with d itself: at most one
      finalisation reports d, and none when d was not waiting; exactly one, when d was
      waiting and is neither deleted nor waiting any more. Processing is all it waits for. */
  lemma {:induction false} OneReportBetween(pre: seq<Action>, post: seq<Action>, d: Id)
    requires NeverArmed(pre, post, d)
    ensures ReportCount(pre + post, d) + (if Waiting(Run(pre + post), d) then 1 else 0)
            <= ReportCount(pre, d) + (if Waiting(Run(pre), d) then 1 else 0)
    ensures Remove(d) !in post ==>
              ReportCount(pre + post, d) + (if Waiting(Run(pre + post), d) then 1 else 0)
              == ReportCount(pre, d) + (if Waiting(Run(pre), d) then 1 else 0)
    ensures WaitsProcessing(Run(pre), d) && Accept(d) !in post ==> WaitsProcessing(Run(pre + post), d)
    decreases |post|
  {
    if post == [] {
      assert pre + post == pre;
    } else {
      var front, a := post[..|post| - 1], post[|post| - 1];
      assert a in post && forall b :: b in front ==> b in post;
      NotArmedBefore(pre, post, d);
      OneReportBetween(pre, front, d);
      SplitLast(pre, post);
      WaitStep(Run(pre + front), a, d);
    }
  }

  // ----- the limit on sources -----

  predicate Limited(a: Action, max: int) {
    match a
    case Upload(_, _, _, _, m, _) => m == max
    case Append(_, _, m, _) => m == max
    case _ => true
  }

  lemma AddedSources(db: Db, after: Db, d: Id, e: Id, files: map<Id, int>)
    requires after.sources == db.sources + NewSources(d, files) && db.sources.Keys !! files.Keys
    ensures SourcesOf(after, e) == SourcesOf(db, e) + (if e == d then files.Keys else {})
    ensures SourcesOf(db, e) !! files.Keys
  {
  }

  lemma AddedCount(db: Db, after: Db, d: Id, e: Id, files: map<Id, int>)
    requires after.sources == db.sources + NewSources(d, files) && db.sources.Keys !! files.Keys
    ensures |SourcesOf(after, e)| == |SourcesOf(db, e)| + (if e == d then |files| else 0)
  {
    AddedSources(db, after, d, e, files);
    assert |files.Keys| == |files|;
  }

  lemma UploadCount(db: Db, e: Id, erp: string, trusted: bool, files: map<Id, int>, max: int, notes: seq<string>, d: Id)
    requires DocsOk(db) && |SourcesOf(db, d)| <= max
    ensures |SourcesOf(Create(db, e, erp, trusted, files, max, notes).db, d)| <= max
  {
    var r := Create(db, e, erp, trusted, files, max, notes);
    if r.outcome == Done {
      assert SourcesOf(db, e) == {};
      AddedCount(db, r.db, e, d, files);
    }
  }

  lemma AppendCount(db: Db, e: Id, files: map<Id, int>, max: int, note: string, d: Id)
    requires max >= 0 && |SourcesOf(db, d)| <= max
    ensures |SourcesOf(AddSources(db, e, files, max, note).db, d)| <= max
  {
    var r := AddSources(db, e, files, max, note);
    if r.outcome == Done {
      AddedCount(db, r.db, e, d, files);
    }
  }

  lemma ShrinkCount(db: Db, after: Db, d: Id)
    requires forall s :: s in after.sources ==> s in db.sources && after.sources[s].doc == db.sources[s].doc
    ensures |SourcesOf(after, d)| <= |SourcesOf(db, d)|
  {
    SubsetCount(SourcesOf(after, d), SourcesOf(db, d));
  }

  /** Only uploads and added files bring new sources. */
  lemma NoNewSources(db: Db, a: Action)
    requires !a.Upload? && !a.Append?
    ensures forall s :: s in Do(db, a).sources ==> s in db.sources && Do(db, a).sources[s].doc == db.sources[s].doc
  {
    match a
    case Hash(id, fp, extra) => HashFrame(db, id, fp, extra);
    case Accept(e) => ReleaseFrame(db.sources, e);
    case _ =>
  }

  lemma CountStep(db: Db, a: Action, max: int, d: Id)
    requires DocsOk(db) && Limited(a, max) && max >= 0 && |SourcesOf(db, d)| <= max
    ensures |SourcesOf(Do(db, a), d)| <= max
  {
    match a
    case Upload(e, erp, trusted, files, _, notes) => UploadCount(db, e, erp, trusted, files, max, notes, d);
    case Append(e, files, _, note) => AppendCount(db, e, files, max, note, d);
    case _ =>
      NoNewSources(db, a);
      ShrinkCount(db, Do(db, a), d);
  }

  /** Under one fixed limit no document ever holds more sources than it. */
  lemma {:induction false} NeverTooMany(acts: seq<Action>, max: int, d: Id)
    requires AllFormed(acts) && max >= 0 && forall i :: 0 <= i < |acts| ==> Limited(acts[i], max)
    ensures |SourcesOf(Run(acts), d)| <= max
  {
    if acts == [] {
      assert SourcesOf(EMPTY, d) == {};
    } else {
      var front := acts[..|acts| - 1];
      NeverTooMany(front, max, d);
      RunInv(front);
      CountStep(Run(front), acts[|acts| - 1], max, d);
    }
  }

  // ----- rejected documents -----

  predicate IsRejected(db: Db, d: Id) {
    d in db.docs && db.docs[d].status == Rejected
  }

  /** The two ways out of rejection: deleting the document, and adding files that pass the
      checks. */
  predicate Revives(db: Db, a: Action, d: Id) {
    match a
    case Remove(e) => e == d
    case Append(e, files, max, _) =>
      && e == d && files != map[] && |files| <= max && |SourcesOf(db, d)| + |files| <= max
      && forall f :: f in files ==> f !in db.sources
    case _ => false
  }

  /** One step keeps a document rejected if and only if it is neither of them. */
  lemma RejectedStep(db: Db, a: Action, d: Id)
    requires IsRejected(db, d)
    ensures IsRejected(Do(db, a), d) <==> !Revives(db, a, d)
  {
  }

  lemma RunNext(pre: seq<Action>, post: seq<Action>, i: nat)
    requires i < |post|
    ensures Run(pre + post[..i + 1]) == Do(Run(pre + post[..i]), post[i])
  {
    SplitLast(pre, post[..i + 1]);
    assert post[..i + 1][..i] == post[..i];
  }

  lemma {:induction false} RejectedUpTo(pre: seq<Action>, post: seq<Action>, d: Id, i: nat)
    requires IsRejected(Run(pre), d) && i <= |post|
    requires forall k :: 0 <= k < i ==> !Revives(Run(pre + post[..k]), post[k], d)
    ensures IsRejected(Run(pre + post[..i]), d)
  {
    if i == 0 {
      assert pre + post[..0] == pre;
    } else {
      RejectedUpTo(pre, post, d, i - 1);
      RunNext(pre, post, i - 1);
      RejectedStep(Run(pre + post[..i - 1]), post[i - 1], d);
    }
  }

  /** A rejected document stays rejected through a run if and only if no step of it deletes
      the document or adds files to it that pass the checks. */
  lemma RejectedIffNotRevived(pre: seq<Action>, post: seq<Action>, d: Id)
    requires IsRejected(Run(pre), d)
    ensures (forall i :: 0 <= i <= |post| ==> IsRejected(Run(pre + post[..i]), d)) <==>
            (forall i :: 0 <= i < |post| ==> !Revives(Run(pre + post[..i]), post[i], d))
  {
    if forall i :: 0 <= i <= |post| ==> IsRejected(Run(pre + post[..i]), d) {
      forall i | 0 <= i < |post|
        ensures !Revives(Run(pre + post[..i]), post[i], d)
      {
        RunNext(pre, post, i);
        RejectedStep(Run(pre + post[..i]), post[i], d);
        assert IsRejected(Run(pre + post[..i + 1]), d);
      }
    }
    if forall i :: 0 <= i < |post| ==> !Revives(Run(pre + post[..i]), post[i], d) {
      forall i | 0 <= i <= |post|
        ensures IsRejected(Run(pre + post[..i]), d)
      {
        RejectedUpTo(pre, post, d, i);
      }
    }
  }

  // ----- review notes -----

  lemma AppendNote(db: Db, e: Id, files: map<Id, int>, maxSources: int, note: string, d: Id)
    requires d in db.docs && N.Settled(db.docs[d].note)
    ensures var after := AddSources(db, e, files, maxSources, note).db;
            d in after.docs && db.docs[d].note <= after.docs[d].note
  {
    if e == d {
      N.MergeExtends(db.docs[d].note, N.Clamp(note));
    }
  }

  lemma OtherNotes(db: Db, a: Action, d: Id)
    requires d in db.docs && !a.Append? && !a.Hash? && !(a.Remove? && a.doc == d)
    ensures d in Do(db, a).docs && Do(db, a).docs[d].note == db.docs[d].note
  {
  }

  lemma NoteStep(db: Db, a: Action, d: Id)
    requires d in db.docs && N.Settled(db.docs[d].note) && !(a.Remove? && a.doc == d)
    ensures d in Do(db, a).docs && db.docs[d].note <= Do(db, a).docs[d].note
  {
    match a
    case Append(e, files, maxSources, note) => AppendNote(db, e, files, maxSources, note, d);
    case Hash(id, fp, extra) => HashFrame(db, id, fp, extra);
    case _ => OtherNotes(db, a, d);
  }

  /** As long as a document exists, its review note is only ever appended to. */
  lemma {:induction false} NoteOnlyGrows(pre: seq<Action>, post: seq<Action>, d: Id)
    requires AllFormed(pre + post) && d in Run(pre).docs
    requires forall i :: 0 <= i < |post| ==> !(post[i].Remove? && post[i].doc == d)
    ensures d in Run(pre + post).docs && Run(pre).docs[d].note <= Run(pre + post).docs[d].note
    decreases |post|
  {
    if post == [] {
      assert pre + post == pre;
    } else {
      var front := post[..|post| - 1];
      assert forall i :: 0 <= i < |pre + front| ==> (pre + front)[i] == (pre + post)[i];
      NoteOnlyGrows(pre, front, d);
      RunInv(pre + front);
      SplitLast(pre, post);
      NoteStep(Run(pre + front), post[|post| - 1], d);
    }
  }
}
