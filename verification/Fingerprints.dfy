/** Fingerprint arithmetic: the Hamming distance loop, the four LSH bands, page
    compatibility and the duplicate thresholds. */
module Fingerprints {
  import opened Options
  import opened Words

  datatype Kind = Exact | Text | Visual

  const SIM_HASH_MAX_DIST := 1
  const P_HASH_MAX_DIST := 1
  const LSH_BANDS := 4
  const MIN_EXACT_SCORE := 99.9
  const MIN_TEXT_NEAR_SCORE := 98.0
  const MIN_VISUAL_SCORE := 98.0

  // ----- Hamming distance -----

  function Distance(a: nat, b: nat): nat {
    PopCount(Xor(a, b))
  }

  /** Kernighan's loop counts the differing bits. */
  method Hamming(a: uint64, b: uint64) returns (n: nat)
    ensures n == Distance(a, b)
  {
    var x := Xor(a, b);
    n := 0;
    while x != 0
      invariant n + PopCount(x) == Distance(a, b)
      decreases x
    {
      ClearLowestBit(x);
      x := And(x, x - 1);
      n := n + 1;
    }
  }

  lemma DistanceSymmetric(a: nat, b: nat)
    ensures Distance(a, b) == Distance(b, a)
  {
    XorSymmetric(a, b);
  }

  lemma DistanceZero(a: nat, b: nat)
    ensures Distance(a, b) == 0 <==> a == b
  {
    PopCountZero(Xor(a, b));
    XorZero(a, b);
  }

  // ----- LSH bands -----

  function Band(h: nat, i: nat): nat {
    Truncate(ShiftRight(h, 16 * i), 16)
  }

  function Bands(h: uint64): (bands: seq<nat>)
    ensures |bands| == LSH_BANDS
    ensures forall i :: 0 <= i < LSH_BANDS ==> bands[i] == Band(h, i)
  {
    [Band(h, 0), Band(h, 1), Band(h, 2), Band(h, 3)]
  }

  lemma LowBand(x: nat)
    ensures x == Truncate(x, 16) + 0x10000 * ShiftRight(x, 16)
    ensures Truncate(x, 16) < 0x10000
  {
    assert Pow2(8) == 256;
    Pow2Plus(8, 8);
    SplitRebuild(x, 16);
  }

  /** The four bands lose nothing: they are 16-bit values that rebuild the hash. */
  lemma BandsRebuild(h: uint64)
    ensures forall i :: 0 <= i < LSH_BANDS ==> Bands(h)[i] < 0x10000
    ensures h == Bands(h)[0] + 0x10000 * Bands(h)[1] + 0x1_0000_0000 * Bands(h)[2]
                 + 0x1_0000_0000_0000 * Bands(h)[3]
  {
    LowBand(h);
    LowBand(ShiftRight(h, 16));
    LowBand(ShiftRight(h, 32));
    LowBand(ShiftRight(h, 48));
    ShiftShift(h, 16, 16);
    ShiftShift(h, 32, 16);
    ShiftShift(h, 48, 16);
    Pow2Of64();
    ShiftBounded(h, 64);
  }

  lemma BandOfXor(a: nat, b: nat, i: nat)
    ensures Band(Xor(a, b), i) == Xor(Band(a, i), Band(b, i))
  {
    XorShift(a, b, 16 * i);
    XorTruncate(ShiftRight(a, 16 * i), ShiftRight(b, 16 * i), 16);
  }

  /** The distance is the sum of the distances of the four bands. */
  lemma DistanceIsBandSum(a: uint64, b: uint64)
    ensures Distance(a, b) == Distance(Bands(a)[0], Bands(b)[0]) + Distance(Bands(a)[1], Bands(b)[1])
                            + Distance(Bands(a)[2], Bands(b)[2]) + Distance(Bands(a)[3], Bands(b)[3])
  {
    var x := Xor(a, b);
    PopCountSplit(x, 16);
    PopCountSplit(ShiftRight(x, 16), 16);
    PopCountSplit(ShiftRight(x, 32), 16);
    PopCountSplit(ShiftRight(x, 48), 16);
    ShiftShift(x, 16, 16);
    ShiftShift(x, 32, 16);
    ShiftShift(x, 48, 16);
    Pow2Of64();
    ShiftBounded(a, 64);
    ShiftBounded(b, 64);
    XorShift(a, b, 64);
    BandOfXor(a, b, 0);
    BandOfXor(a, b, 1);
    BandOfXor(a, b, 2);
    BandOfXor(a, b, 3);
  }

  /** Pigeonhole: hashes closer than the number of bands agree on a whole band. */
  lemma NearShareBand(a: uint64, b: uint64)
    requires Distance(a, b) < LSH_BANDS
    ensures exists i :: 0 <= i < LSH_BANDS && Bands(a)[i] == Bands(b)[i]
  {
    DistanceIsBandSum(a, b);
    forall i | 0 <= i < LSH_BANDS
      ensures Distance(Bands(a)[i], Bands(b)[i]) == 0 <==> Bands(a)[i] == Bands(b)[i]
    {
      DistanceZero(Bands(a)[i], Bands(b)[i]);
    }
  }

  // ----- scores and thresholds -----

  function ScoreFromDistance(dist: int, bits: int): real {
    if bits <= 0 then 0.0
    else
      var d := if dist < 0 then 0 else dist;
      if d > bits then 0.0 else 100.0 * (1.0 - d as real / bits as real)
  }

  predicate PagesCompatible(a: int, b: int) {
    if a <= 0 || b <= 0 then false
    else
      var d := if a - b < 0 then b - a else a - b;
      d == 0 || (d == 1 && a >= 8 && b >= 8)
  }

  predicate IsDuplicate(kind: Kind, score: real, pagesA: int, pagesB: int) {
    match kind
    case Exact => score >= MIN_EXACT_SCORE
    case Text => score >= MIN_TEXT_NEAR_SCORE && PagesCompatible(pagesA, pagesB)
    case Visual => score >= MIN_VISUAL_SCORE && PagesCompatible(pagesA, pagesB)
  }

  /** The near-duplicate thresholds accept exactly the distances the searches allow:
      with 64 bits, a score of at least 98 means at most one differing bit. */
  lemma ThresholdIsOneBit(dist: nat)
    ensures ScoreFromDistance(dist, 64) >= MIN_TEXT_NEAR_SCORE <==> dist <= SIM_HASH_MAX_DIST
    ensures ScoreFromDistance(dist, 64) >= MIN_VISUAL_SCORE <==> dist <= P_HASH_MAX_DIST
  {
  }

  // ----- fingerprints -----

  /** An empty hash string or a zero hash stands for a missing value. */
  datatype Fingerprint = Fingerprint(
    sha: string, textNorm: string, simHash: uint64, pHash: uint64,
    hasText: bool, hasVisual: bool, pages: int)

  /** What reading a file can yield, besides its SHA-256. */
  datatype Body =
    | Opaque
    | Pdf(runes: nat, tokens: nat, pages: int, normSha: string, simHash: uint64)
    | Image(hash: Option<uint64>)

  const MIN_TEXT_RUNES := 800
  const MIN_TOKENS := 96
  const MIN_RUNES_PER_PAGE := 80

  predicate TextIsSubstantial(runes: nat, tokens: nat, pages: int) {
    if runes < MIN_TEXT_RUNES || tokens < MIN_TOKENS then false
    else pages <= 1 || runes >= pages * MIN_RUNES_PER_PAGE
  }

  function Analyze(sha: string, body: Body): Fingerprint {
    match body
    case Opaque => Fingerprint(sha, "", 0, 0, false, false, 0)
    case Pdf(runes, tokens, pages, normSha, simHash) =>
      if TextIsSubstantial(runes, tokens, pages)
      then Fingerprint(sha, normSha, simHash, 0, true, false, pages)
      else Fingerprint(sha, "", 0, 0, false, false, pages)
    case Image(None) => Fingerprint(sha, "", 0, 0, false, false, 1)
    case Image(Some(h)) => Fingerprint(sha, "", 0, h, false, true, 1)
  }

  /** A text fingerprint or a visual one, never both, and no stray hashes. */
  predicate WellFormed(fp: Fingerprint) {
    && (if fp.hasText then fp.textNorm != "" && !fp.hasVisual else fp.textNorm == "" && fp.simHash == 0)
    && (!fp.hasVisual ==> fp.pHash == 0)
  }

  /** Every analysed file has a well-formed fingerprint; a SHA-256 is never empty. */
  lemma AnalyzeIsWellFormed(sha: string, body: Body)
    requires body.Pdf? ==> body.normSha != ""
    ensures WellFormed(Analyze(sha, body))
  {
  }

  // ----- the match relation -----

  datatype Edge = Edge(score: real, kind: Kind)

  predicate Near(a: uint64, b: uint64) {
    a != 0 && b != 0 && Distance(a, b) <= 1
  }

  /** Whether two files count as duplicates of each other, with score and kind. */
  function Link(a: Fingerprint, b: Fingerprint): Option<Edge> {
    if a.sha == b.sha then Some(Edge(100.0, Exact))
    else if !PagesCompatible(a.pages, b.pages) then None
    else if a.hasText && b.hasText then
      if Near(a.simHash, b.simHash) then
        var s := ScoreFromDistance(Distance(a.simHash, b.simHash), 64);
        Some(Edge(if a.textNorm == b.textNorm && s < 99.5 then 99.5 else s, Text))
      else if a.textNorm == b.textNorm then Some(Edge(99.5, Text))
      else None
    else if Near(a.pHash, b.pHash) then
      Some(Edge(ScoreFromDistance(Distance(a.pHash, b.pHash), 64), Visual))
    else None
  }

  lemma LinkSymmetric(a: Fingerprint, b: Fingerprint)
    ensures Link(a, b) == Link(b, a)
  {
    DistanceSymmetric(a.simHash, b.simHash);
    DistanceSymmetric(a.pHash, b.pHash);
  }

  /** Every link scores between 98 and 100, and 100 exactly for equal hashes. */
  lemma LinkScores(a: Fingerprint, b: Fingerprint)
    requires Link(a, b).Some?
    ensures 98.0 <= Link(a, b).value.score <= 100.0
    ensures Link(a, b).value.kind == Exact <==> a.sha == b.sha
    ensures Link(a, b).value.score == 100.0 <==>
              a.sha == b.sha || (a.hasText && b.hasText && a.simHash == b.simHash != 0)
              || (!(a.hasText && b.hasText) && a.pHash == b.pHash != 0)
  {
    DistanceZero(a.simHash, b.simHash);
    DistanceZero(a.pHash, b.pHash);
    OneBitScore();
  }

  lemma OneBitScore()
    ensures ScoreFromDistance(0, 64) == 100.0
    ensures ScoreFromDistance(1, 64) == 98.4375
  {
  }
}
