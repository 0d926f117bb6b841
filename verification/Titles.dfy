/** Title similarity: fuzzy word scores, the greedy alignment of content words and
    the Dice score built on it. */
module Titles {
  import opened EditDistance
  import opened Sequences
  import opened Unicode

  const WORD_MIN := 0.80
  const MIN_RUNES := 8
  const SHORT_WORD := 4
  const MIN_MATCH := 2

  const STOP: set<string> := {
    "a", "an", "and", "as", "at", "by", "for", "from", "in", "into", "of", "on",
    "over", "per", "the", "to", "using", "via", "with"
  }

  // ----- words -----

  function Ratio(a: string, b: string): real {
    if a == b then 1.0
    else if a == [] || b == [] then 0.0
    else 1.0 - Lev(a, b) as real / Max(|a|, |b|) as real
  }

  function WordScore(a: string, b: string): real {
    if a == b then 1.0
    else if |a| < SHORT_WORD || |b| < SHORT_WORD then 0.0
    else Ratio(a, b)
  }

  method ComputeWordScore(a: string, b: string) returns (r: real)
    ensures r == WordScore(a, b)
  {
    if a == b {
      return 1.0;
    }
    if |a| < SHORT_WORD || |b| < SHORT_WORD {
      return 0.0;
    }
    var d := Levenshtein(a, b);
    var max := |a|;
    if |b| > max {
      max := |b|;
    }
    return 1.0 - d as real / max as real;
  }

  /** Scores lie in 0..1, reach 1 for identical words only, and do not depend on
      which word comes first. */
  lemma WordScoreRange(a: string, b: string)
    ensures 0.0 <= WordScore(a, b) <= 1.0
    ensures WordScore(a, b) == 1.0 <==> a == b
    ensures WordScore(a, b) == WordScore(b, a)
  {
    LevZero(a, b);
    LevBounds(a, b);
    LevSymmetric(a, b);
    if a != b && |a| >= SHORT_WORD && |b| >= SHORT_WORD {
      QuotientRange(Lev(a, b), Max(|a|, |b|));
    }
  }

  lemma QuotientRange(d: nat, m: nat)
    requires 0 < d <= m
    ensures 0.0 < d as real / m as real <= 1.0
  {
  }

  predicate Compatible(a: string, b: string) {
    WordScore(a, b) >= WORD_MIN
  }

  // ----- the greedy alignment -----

  /** The partner the greedy step takes for one word among the first n words of b:
      the first free word with the highest admissible score, or -1. */
  function Partner(w: string, b: seq<string>, used: set<int>, n: nat): (p: int)
    requires n <= |b|
    ensures -1 <= p < n
  {
    if n == 0 then -1
    else
      var p := Partner(w, b, used, n - 1);
      if n - 1 in used || !Compatible(w, b[n - 1]) then p
      else if p == -1 || WordScore(w, b[n - 1]) > WordScore(w, b[p]) then n - 1
      else p
  }

  function Used(picks: seq<int>): set<int> {
    set p | p in picks && p >= 0
  }

  /** The partners of the first n words of a, in order. */
  function Picks(a: seq<string>, b: seq<string>, n: nat): (picks: seq<int>)
    requires n <= |a|
    ensures |picks| == n
    ensures forall i :: 0 <= i < n ==> -1 <= picks[i] < |b|
  {
    if n == 0 then []
    else
      var picks := Picks(a, b, n - 1);
      picks + [Partner(a[n - 1], b, Used(picks), |b|)]
  }

  function Alignment(a: seq<string>, b: seq<string>): seq<int> {
    Picks(a, b, |a|)
  }

  function Matched(a: seq<string>, b: seq<string>): nat {
    |Used(Alignment(a, b))|
  }

  function MatchedLeft(picks: seq<int>): set<int> {
    set i | 0 <= i < |picks| && picks[i] >= 0
  }

  lemma MatchedLeftAdd(picks: seq<int>, p: int)
    ensures MatchedLeft(picks + [p]) == MatchedLeft(picks) + (if p >= 0 then {|picks|} else {})
  {
  }

  function Hits(hit: seq<bool>): set<int> {
    set i | 0 <= i < |hit| && hit[i]
  }

  method FindPartner(w: string, b: seq<string>, bHit: array<bool>) returns (best: int)
    requires bHit.Length == |b|
    ensures best == Partner(w, b, Hits(bHit[..]), |b|)
  {
    best := -1;
    var bestR := 0.0;
    for j := 0 to |b|
      invariant best == Partner(w, b, Hits(bHit[..]), j)
      invariant bestR == if best == -1 then 0.0 else WordScore(w, b[best])
    {
      if bHit[j] {
        continue;
      }
      var r := ComputeWordScore(w, b[j]);
      if r >= WORD_MIN && r > bestR {
        bestR := r;
        best := j;
      }
    }
  }

  lemma HitsAdd(was: seq<bool>, i: nat)
    requires i < |was| && i !in Hits(was)
    ensures Hits(was[i := true]) == Hits(was) + {i}
  {
  }

  lemma UsedAdd(picks: seq<int>, p: int)
    requires p >= -1
    ensures Used(picks + [p]) == Used(picks) + (if p >= 0 then {p} else {})
  {
  }

  /** The flags and the counter describe the picks made so far. */
  ghost predicate Tracks(aHit: seq<bool>, bHit: seq<bool>, matched: nat, picks: seq<int>) {
    && Hits(aHit) == MatchedLeft(picks)
    && Hits(bHit) == Used(picks)
    && matched == |Hits(aHit)| == |Hits(bHit)|
  }

  lemma TracksStep(aHit: seq<bool>, bHit: seq<bool>, matched: nat, picks: seq<int>, p: int)
    requires Tracks(aHit, bHit, matched, picks) && |picks| < |aHit|
    requires -1 <= p < |bHit| && p !in Used(picks)
    ensures p < 0 ==> Tracks(aHit, bHit, matched, picks + [p])
    ensures p >= 0 ==> Tracks(aHit[|picks| := true], bHit[p := true], matched + 1, picks + [p])
  {
    UsedAdd(picks, p);
    MatchedLeftAdd(picks, p);
    if p >= 0 {
      HitsAdd(aHit, |picks|);
      HitsAdd(bHit, p);
    }
  }

  /** The flags and the counter after the next pick. */
  lemma TracksPick(a: seq<string>, b: seq<string>, aHit: seq<bool>, bHit: seq<bool>, matched: nat, i: nat, p: int)
    requires i < |a| == |aHit| && |b| == |bHit| && Tracks(aHit, bHit, matched, Picks(a, b, i))
    requires p == Partner(a[i], b, Hits(bHit), |b|)
    ensures if p < 0 then Tracks(aHit, bHit, matched, Picks(a, b, i + 1))
            else p !in Hits(bHit) && Tracks(aHit[i := true], bHit[p := true], matched + 1, Picks(a, b, i + 1))
  {
    PartnerIsFree(a[i], b, Hits(bHit), |b|);
    TracksStep(aHit, bHit, matched, Picks(a, b, i), p);
    assert Picks(a, b, i + 1) == Picks(a, b, i) + [p];
  }

  method Align(a: seq<string>, b: seq<string>) returns (matched: nat, aHit: array<bool>, bHit: array<bool>)
    ensures fresh(aHit) && fresh(bHit) && aHit.Length == |a| && bHit.Length == |b|
    ensures matched == Matched(a, b)
    ensures Tracks(aHit[..], bHit[..], matched, Alignment(a, b))
  {
    aHit := new bool[|a|](i => false);
    bHit := new bool[|b|](j => false);
    matched := 0;
    for i := 0 to |a|
      invariant Tracks(aHit[..], bHit[..], matched, Picks(a, b, i))
    {
      ghost var aWas, bWas := aHit[..], bHit[..];
      var best := FindPartner(a[i], b, bHit);
      TracksPick(a, b, aWas, bWas, matched, i, best);
      if best >= 0 {
        aHit[i] := true;
        bHit[best] := true;
        matched := matched + 1;
        assert aHit[..] == aWas[i := true];
        assert bHit[..] == bWas[best := true];
      }
    }
  }

  // ----- what the greedy alignment achieves -----

  lemma {:induction false} PartnerIsFree(w: string, b: seq<string>, used: set<int>, n: nat)
    requires n <= |b|
    ensures var p := Partner(w, b, used, n);
            p >= 0 ==> p !in used && Compatible(w, b[p])
  {
    if n > 0 {
      PartnerIsFree(w, b, used, n - 1);
    }
  }

  /** The partner has the highest score of all free words, and a free compatible
      word always yields a partner. */
  lemma {:induction false} PartnerIsBest(w: string, b: seq<string>, used: set<int>, n: nat, j: nat)
    requires j < n <= |b| && j !in used && Compatible(w, b[j])
    ensures Partner(w, b, used, n) >= 0
    ensures WordScore(w, b[j]) <= WordScore(w, b[Partner(w, b, used, n)])
    ensures WordScore(w, b[j]) == WordScore(w, b[Partner(w, b, used, n)]) ==> Partner(w, b, used, n) <= j
  {
    PartnerIsFree(w, b, used, n - 1);
    if j < n - 1 {
      PartnerIsBest(w, b, used, n - 1, j);
    }
  }

  lemma PicksStep(a: seq<string>, b: seq<string>, n: nat)
    requires n < |a|
    ensures Picks(a, b, n + 1)[..n] == Picks(a, b, n)
    ensures Picks(a, b, n + 1)[n] == Partner(a[n], b, Used(Picks(a, b, n)), |b|)
  {
  }

  lemma {:induction false} PicksPrefix(a: seq<string>, b: seq<string>, m: nat, n: nat)
    requires m <= n <= |a|
    ensures Picks(a, b, n)[..m] == Picks(a, b, m)
    decreases n
  {
    if m < n {
      PicksPrefix(a, b, m, n - 1);
      assert Picks(a, b, n)[..m] == Picks(a, b, n - 1)[..m];
    }
  }

  /** The pick of word i is the greedy step against the partners of the words before it. */
  lemma PickAt(a: seq<string>, b: seq<string>, i: nat)
    requires i < |a|
    ensures Alignment(a, b)[i] == Partner(a[i], b, Used(Picks(a, b, i)), |b|)
    ensures Used(Picks(a, b, i)) <= Used(Alignment(a, b))
  {
    PicksPrefix(a, b, i + 1, |a|);
    PicksPrefix(a, b, i, |a|);
    assert Alignment(a, b)[i] == Alignment(a, b)[..i + 1][i];
    assert forall p :: p in Picks(a, b, i) ==> p in Alignment(a, b);
  }

  /** No word of b is given out twice, and only compatible words are paired. */
  lemma AlignmentSound(a: seq<string>, b: seq<string>)
    ensures forall i :: 0 <= i < |a| && Alignment(a, b)[i] >= 0 ==> Compatible(a[i], b[Alignment(a, b)[i]])
    ensures forall i, k :: 0 <= k < i < |a| && Alignment(a, b)[i] >= 0
                           ==> Alignment(a, b)[i] != Alignment(a, b)[k]
  {
    var picks := Alignment(a, b);
    forall i | 0 <= i < |a| && picks[i] >= 0
      ensures Compatible(a[i], b[picks[i]])
      ensures forall k :: 0 <= k < i ==> picks[i] != picks[k]
    {
      PickAt(a, b, i);
      PartnerIsFree(a[i], b, Used(Picks(a, b, i)), |b|);
      PicksPrefix(a, b, i, |a|);
      assert forall k :: 0 <= k < i ==> picks[k] == Picks(a, b, i)[k];
    }
  }

  /** The alignment is maximal: no compatible pair is left with both words unmatched. */
  lemma AlignmentMaximal(a: seq<string>, b: seq<string>, i: nat, j: nat)
    requires i < |a| && j < |b| && Compatible(a[i], b[j])
    ensures Alignment(a, b)[i] >= 0 || j in Used(Alignment(a, b))
  {
    PickAt(a, b, i);
    if j !in Used(Alignment(a, b)) {
      PartnerIsBest(a[i], b, Used(Picks(a, b, i)), |b|, j);
    }
  }

  /** As many words of a are matched as words of b. */
  lemma {:induction false} SidesAgree(a: seq<string>, b: seq<string>, n: nat)
    requires n <= |a|
    ensures |MatchedLeft(Picks(a, b, n))| == |Used(Picks(a, b, n))|
  {
    if n > 0 {
      SidesAgree(a, b, n - 1);
      var picks := Picks(a, b, n - 1);
      var p := Partner(a[n - 1], b, Used(picks), |b|);
      PartnerIsFree(a[n - 1], b, Used(picks), |b|);
      UsedAdd(picks, p);
      MatchedLeftAdd(picks, p);
    }
  }

  // ----- the score -----

  /** The whitespace-separated words of s, the first continuing `word`. */
  function Fields(s: string, word: string): seq<string> {
    var done := if word == [] then [] else [word];
    if s == [] then done
    else if IsSpace(s[0]) then done + Fields(s[1..], [])
    else Fields(s[1..], word + [s[0]])
  }

  function ContentWords(parts: seq<string>): seq<string> {
    if parts == [] then []
    else
      var last := parts[|parts| - 1];
      ContentWords(parts[..|parts| - 1]) + (if last in STOP then [] else [last])
  }

  function TokensOf(norm: string): seq<string> {
    ContentWords(Fields(norm, []))
  }

  method Tokens(norm: string) returns (out: seq<string>)
    ensures out == TokensOf(norm)
  {
    var parts := Fields(norm, []);
    out := [];
    for i := 0 to |parts|
      invariant out == ContentWords(parts[..i])
    {
      assert parts[..i + 1][..i] == parts[..i];
      if parts[i] !in STOP {
        out := out + [parts[i]];
      }
    }
    assert parts[..|parts|] == parts;
  }

  function Score(left: string, right: string): real {
    if left == [] || right == [] then 0.0
    else if left == right then 1.0
    else
      var a, b := TokensOf(left), TokensOf(right);
      if a == [] || b == [] || |left| < MIN_RUNES || |right| < MIN_RUNES || Matched(a, b) < MIN_MATCH then 0.0
      else 2.0 * Matched(a, b) as real / (|a| + |b|) as real
  }

  method ScoreNorm(left: string, right: string) returns (score: real)
    ensures score == Score(left, right)
    ensures 0.0 <= score <= 1.0
  {
    ScoreRange(left, right);
    if left == [] || right == [] {
      return 0.0;
    }
    if left == right {
      return 1.0;
    }
    var a := Tokens(left);
    var b := Tokens(right);
    if |a| == 0 || |b| == 0 {
      return 0.0;
    }
    if |left| < MIN_RUNES || |right| < MIN_RUNES {
      return 0.0;
    }
    var matched, _, _ := Align(a, b);
    if matched < MIN_MATCH {
      return 0.0;
    }
    var den := |a| + |b|;
    return 2.0 * matched as real / den as real;
  }

  lemma {:induction false} SubsetOfRange(s: set<int>, n: nat)
    requires forall x :: x in s ==> 0 <= x < n
    ensures |s| <= n
    decreases n
  {
    if s != {} {
      var x := Pick(s);
      SubsetOfRange(s - {n - 1}, n - 1);
    }
  }

  lemma MatchedBounds(a: seq<string>, b: seq<string>)
    ensures Matched(a, b) <= |a| && Matched(a, b) <= |b|
  {
    SidesAgree(a, b, |a|);
    SubsetOfRange(MatchedLeft(Alignment(a, b)), |a|);
    SubsetOfRange(Used(Alignment(a, b)), |b|);
  }

  lemma FractionRange(x: nat, y: nat)
    requires 0 < y && 2 * x <= y
    ensures 0.0 <= 2.0 * x as real / y as real <= 1.0
    ensures 2 * x == y ==> 2.0 * x as real / y as real == 1.0
  {
  }

  /** The Dice score always lies in 0..1. */
  lemma ScoreRange(left: string, right: string)
    ensures 0.0 <= Score(left, right) <= 1.0
  {
    var a, b := TokensOf(left), TokensOf(right);
    MatchedBounds(a, b);
    if a != [] {
      FractionRange(Matched(a, b), |a| + |b|);
    }
  }

  // ----- word order -----

  function Occurrences(s: seq<string>, w: string): set<int> {
    set i | 0 <= i < |s| && s[i] == w
  }

  lemma {:induction false} OccurrencesCount(s: seq<string>, w: string)
    ensures |Occurrences(s, w)| == multiset(s)[w]
    decreases s
  {
    if s != [] {
      var front, last := s[..|s| - 1], s[|s| - 1];
      OccurrencesCount(front, w);
      assert s == front + [last];
      assert Occurrences(s, w) == Occurrences(front, w) + (if last == w then {|s| - 1} else {});
    }
  }

  lemma {:induction false} ImageSize(xs: set<int>, f: map<int, int>, ys: set<int>)
    requires forall y :: y in ys ==> exists x :: x in xs && x in f && f[x] == y
    ensures |ys| <= |xs|
    decreases |xs|
  {
    if ys != {} {
      var y := Pick(ys);
      var x :| x in xs && x in f && f[x] == y;
      ImageSize(xs - {x}, f, ys - {y});
    }
  }

  /** While every earlier word found an identical partner, so does the next. */
  lemma IdenticalWordFree(a: seq<string>, b: seq<string>, n: nat)
    requires n < |a| && multiset(a) == multiset(b)
    requires forall k :: 0 <= k < n ==> Picks(a, b, n)[k] >= 0 && b[Picks(a, b, n)[k]] == a[k]
    ensures exists j :: 0 <= j < |b| && j !in Used(Picks(a, b, n)) && b[j] == a[n]
  {
    var w, picks := a[n], Picks(a, b, n);
    var taken := Used(picks) * Occurrences(b, w);
    var before := Occurrences(a[..n], w);
    var partner := map x | 0 <= x < n :: picks[x];
    forall y | y in taken
      ensures exists x :: x in before && x in partner && partner[x] == y
    {
      var x :| 0 <= x < n && picks[x] == y;
      assert x in before;
    }
    ImageSize(before, partner, taken);
    OccurrencesCount(a, w);
    OccurrencesCount(b, w);
    assert before + {n} <= Occurrences(a, w);
    SubsetCount(before + {n}, Occurrences(a, w));
    assert taken != Occurrences(b, w);
    var j :| j in Occurrences(b, w) && j !in Used(picks);
  }

  /** When b is a permutation of a, every word is paired with an identical one. */
  lemma {:induction false} PermutationAligns(a: seq<string>, b: seq<string>, n: nat)
    requires n <= |a| && multiset(a) == multiset(b)
    ensures forall k :: 0 <= k < n ==> Picks(a, b, n)[k] >= 0 && b[Picks(a, b, n)[k]] == a[k]
  {
    if n > 0 {
      PermutationAligns(a, b, n - 1);
      IdenticalWordFree(a, b, n - 1);
      var used := Used(Picks(a, b, n - 1));
      var j :| 0 <= j < |b| && j !in used && b[j] == a[n - 1];
      WordScoreRange(a[n - 1], b[j]);
      PartnerIsBest(a[n - 1], b, used, |b|, j);
      var p := Partner(a[n - 1], b, used, |b|);
      WordScoreRange(a[n - 1], b[p]);
      PicksStep(a, b, n - 1);
    }
  }

  /** Word lists that are permutations of each other are matched completely. */
  lemma PermutationMatchesAll(a: seq<string>, b: seq<string>)
    requires multiset(a) == multiset(b)
    ensures |a| == |b| && |MatchedLeft(Alignment(a, b))| == |a|
  {
    assert |a| == |multiset(a)| == |multiset(b)| == |b|;
    PermutationAligns(a, b, |a|);
    AllMatched(Alignment(a, b));
  }

  /** Reordering the content words of a title leaves the score at 1, exactly when
      the titles are equal or pass the rune and word minimums; otherwise it is 0. */
  lemma WordOrderIrrelevant(left: string, right: string)
    requires left != [] && right != []
    requires multiset(TokensOf(left)) == multiset(TokensOf(right))
    ensures Score(left, right) ==
            if left == right || (|left| >= MIN_RUNES && |right| >= MIN_RUNES && |TokensOf(left)| >= MIN_MATCH)
            then 1.0 else 0.0
  {
    var a, b := TokensOf(left), TokensOf(right);
    PermutationMatchesAll(a, b);
    SidesAgree(a, b, |a|);
    if a != [] {
      FractionRange(|a|, |a| + |b|);
    }
  }

  lemma {:induction false} AllMatched(picks: seq<int>)
    requires forall i :: 0 <= i < |picks| ==> picks[i] >= 0
    ensures |MatchedLeft(picks)| == |picks|
    decreases picks
  {
    if picks != [] {
      var front := picks[..|picks| - 1];
      AllMatched(front);
      assert MatchedLeft(picks) == MatchedLeft(front) + {|picks| - 1};
    }
  }
}
