/** When two files count as duplicates, said in terms of what they contain: bit positions,
    page counts and upload times instead of scores and searches. */
module Likeness {
  import opened Fingerprints
  import opened Words

  // ----- distance -----

  /** The positions below n at which the bit is set. */
  function SetBits(x: nat, n: nat): set<nat> {
    set i: nat | i < n && Bit(x, i)
  }

  /** The positions at which two hashes differ. */
  function Differing(a: uint64, b: uint64): set<nat> {
    set i: nat | i < 64 && Bit(a, i) != Bit(b, i)
  }

  lemma {:induction false} PopCountSetBits(x: nat, n: nat)
    ensures PopCount(x) == |SetBits(x, n)| + PopCount(ShiftRight(x, n))
    decreases n
  {
    if n == 0 {
      assert SetBits(x, 0) == {};
    } else {
      PopCountSetBits(x, n - 1);
      ShiftShift(x, n - 1, 1);
      NextShift(x, n - 1);
      var last := n - 1;
      if Bit(x, last) {
        assert SetBits(x, n) == SetBits(x, last) + {last};
      } else {
        assert SetBits(x, n) == SetBits(x, last);
      }
    }
  }

  lemma NextShift(x: nat, n: nat)
    ensures ShiftRight(x, n + 1) == ShiftRight(x, n) / 2
    ensures PopCount(ShiftRight(x, n)) == (if Bit(x, n) then 1 else 0) + PopCount(ShiftRight(x, n + 1))
  {
    ShiftShift(x, n, 1);
    assert ShiftRight(ShiftRight(x, n), 1) == ShiftRight(ShiftRight(x, n) / 2, 0);
    PopCountUnfold(ShiftRight(x, n));
  }

  lemma PopCountUnfold(y: nat)
    ensures PopCount(y) == (if y % 2 == 1 then 1 else 0) + PopCount(y / 2)
  {
  }

  lemma BitOfXor(a: nat, b: nat, i: nat)
    ensures Bit(Xor(a, b), i) <==> Bit(a, i) != Bit(b, i)
  {
    XorShift(a, b, i);
    XorHalf(ShiftRight(a, i), ShiftRight(b, i));
    SumIsOdd(ShiftRight(a, i), ShiftRight(b, i));
  }

  lemma SumIsOdd(a: nat, b: nat)
    ensures (a + b) % 2 == 1 <==> (a % 2 == 1) != (b % 2 == 1)
  {
  }

  /** The Hamming distance counts the positions at which the hashes differ. */
  lemma DistanceCounts(a: uint64, b: uint64)
    ensures Distance(a, b) == |Differing(a, b)|
  {
    var x := Xor(a, b);
    PopCountSetBits(x, 64);
    XorShift(a, b, 64);
    Pow2Of64();
    ShiftBounded(a, 64);
    ShiftBounded(b, 64);
    forall i: nat | i < 64
      ensures Bit(x, i) <==> Bit(a, i) != Bit(b, i)
    {
      BitOfXor(a, b, i);
    }
    assert SetBits(x, 64) == Differing(a, b);
  }

  // ----- likeness -----

  /** Known page counts that are equal, or neighbours from eight pages on. */
  predicate PagesAgree(a: int, b: int) {
    && 1 <= a && 1 <= b
    && (a == b || (8 <= a && 8 <= b && -1 <= a - b <= 1))
  }

  /** Two texts with the same normalised wording, or with hashes at most one bit apart. */
  predicate SameText(a: Fingerprint, b: Fingerprint) {
    && a.hasText && b.hasText
    && (a.textNorm == b.textNorm || (a.simHash != 0 && b.simHash != 0 && |Differing(a.simHash, b.simHash)| <= 1))
  }

  /** Two pictures with hashes at most one bit apart. */
  predicate SameImage(a: Fingerprint, b: Fingerprint) {
    a.hasVisual && b.hasVisual && a.pHash != 0 && b.pHash != 0 && |Differing(a.pHash, b.pHash)| <= 1
  }

  /** The same bytes, or the same content on as many pages. */
  predicate Alike(a: Fingerprint, b: Fingerprint) {
    a.sha == b.sha || (PagesAgree(a.pages, b.pages) && (SameText(a, b) || SameImage(a, b)))
  }

  /** What a duplicate scores: 100 for equal bytes or hashes, 99.5 for the same wording,
      and 98.4375 for one bit. */
  function Grade(a: Fingerprint, b: Fingerprint): real {
    if a.sha == b.sha then 100.0
    else if SameText(a, b) then
      if a.simHash == b.simHash && a.simHash != 0 then 100.0
      else if a.textNorm == b.textNorm then 99.5
      else 98.4375
    else if a.pHash == b.pHash then 100.0
    else 98.4375
  }

  function KindOf(a: Fingerprint, b: Fingerprint): Kind {
    if a.sha == b.sha then Exact else if a.hasText then Text else Visual
  }

  lemma NearCounts(a: uint64, b: uint64)
    ensures Near(a, b) <==> a != 0 && b != 0 && |Differing(a, b)| <= 1
    ensures Near(a, b) ==> ScoreFromDistance(Distance(a, b), 64) == if a == b then 100.0 else 98.4375
  {
    DistanceCounts(a, b);
    DistanceZero(a, b);
    OneBitScore();
  }

  lemma PagesRule(a: int, b: int)
    ensures PagesCompatible(a, b) <==> PagesAgree(a, b)
  {
  }

  /** The match relation that searches, thresholds and page rule amount to. */
  lemma LinkMeaning(a: Fingerprint, b: Fingerprint)
    requires WellFormed(a) && WellFormed(b)
    ensures Link(a, b).Some? <==> Alike(a, b)
    ensures Link(a, b).Some? ==> Link(a, b).value == Edge(Grade(a, b), KindOf(a, b))
  {
    NearCounts(a.simHash, b.simHash);
    NearCounts(a.pHash, b.pHash);
    PagesRule(a.pages, b.pages);
  }

  // ----- from the files themselves -----

  /** Enough text to compare by: 800 runes, 96 words, and 80 runes for every page. */
  predicate Wordy(body: Body) {
    body.Pdf? && body.runes >= 800 && body.tokens >= 96 && body.runes >= 80 * body.pages
  }

  /** Two files match if and only if they have the same bytes, or both are wordy
      documents of agreeing length with the same text, or both are pictures one bit
      apart at most. */
  lemma FilesMatch(s: string, x: Body, t: string, y: Body)
    requires (x.Pdf? ==> x.normSha != "") && (y.Pdf? ==> y.normSha != "")
    ensures Link(Analyze(s, x), Analyze(t, y)).Some? <==>
              || s == t
              || (&& Wordy(x) && Wordy(y) && PagesAgree(x.pages, y.pages)
                  && (|| x.normSha == y.normSha
                      || (x.simHash != 0 && y.simHash != 0 && |Differing(x.simHash, y.simHash)| <= 1)))
              || (&& x.Image? && y.Image? && x.hash.Some? && y.hash.Some? && x.hash.value != 0 && y.hash.value != 0
                  && |Differing(x.hash.value, y.hash.value)| <= 1)
  {
    var a, b := Analyze(s, x), Analyze(t, y);
    WordyMeaning(s, x);
    WordyMeaning(t, y);
    LinkMeaning(a, b);
  }

  lemma WordyMeaning(s: string, x: Body)
    requires x.Pdf? ==> x.normSha != ""
    ensures WellFormed(Analyze(s, x)) && Analyze(s, x).sha == s
    ensures Analyze(s, x).hasText <==> Wordy(x)
    ensures Wordy(x) ==> var fp := Analyze(s, x); fp.textNorm == x.normSha && fp.simHash == x.simHash && fp.pages == x.pages
    ensures Analyze(s, x).hasVisual <==> x.Image? && x.hash.Some?
    ensures x.Image? ==> Analyze(s, x).pages == 1
    ensures x.Image? && x.hash.Some? ==> Analyze(s, x).pHash == x.hash.value
  {
    AnalyzeIsWellFormed(s, x);
  }
}
