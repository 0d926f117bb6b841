/** What the title score says: when two words agree, which words greedy pairs, what
    the score counts, and when it is 0 or 1. */
module Scores {
  import opened EditDistance
  import opened Options
  import opened Sequences
  import opened Titles
  import opened Unicode

  // ----- words -----

  /** Different words agree only from four letters on, and when one edit in five letters
      of the longer word is enough. */
  lemma CompatibleIff(a: string, b: string)
    ensures Compatible(a, b) <==>
              || a == b
              || (&& |a| >= 4 && |b| >= 4
                  && exists s :: Apply(s, a) == Some(b) && (5 * Edits(s) <= |a| || 5 * Edits(s) <= |b|))
  {
    LevIsShortestScript(a, b);
    if a != b && |a| >= 4 && |b| >= 4 {
      var longer := Longer(a, b);
      OneInFive(Lev(a, b), longer);
      LongWordScore(a, b);
    }
  }

  lemma OneInFive(n: nat, longer: nat)
    requires longer > 0
    ensures 1.0 - n as real / longer as real >= 0.80 <==> 5 * n <= longer
  {
    var q := n as real / longer as real;
    FifthOf(q, n as real, longer as real);
  }

  lemma FifthOf(q: real, x: real, y: real)
    requires y > 0.0 && q == x / y
    ensures q <= 0.2 <==> 5.0 * x <= y
  {
    Product(q, x, y);
    ScaledBy(q, y);
  }

  lemma Product(q: real, x: real, y: real)
    requires y > 0.0 && q == x / y
    ensures q * y == x
  {
  }

  lemma ScaledBy(q: real, y: real)
    requires y > 0.0
    ensures q <= 0.2 <==> q * y <= 0.2 * y
  {
  }

  /** A script from a to b that no other one undercuts. */
  ghost predicate Shortest(s: Script, a: string, b: string) {
    Apply(s, a) == Some(b) && forall r :: Apply(r, a) == Some(b) ==> Edits(s) <= Edits(r)
  }

  function Longer(a: string, b: string): nat {
    if |a| < |b| then |b| else |a|
  }

  /** The score of different words from four letters on: the share of the longer one that a
      shortest script leaves alone. */
  lemma WordScoreMeaning(a: string, b: string) returns (s: Script)
    requires a != b
    ensures Shortest(s, a, b)
    ensures |a| < 4 || |b| < 4 ==> WordScore(a, b) == 0.0
    ensures |a| >= 4 && |b| >= 4 ==> IsRest(WordScore(a, b), Edits(s), Longer(a, b))
  {
    s := SomeShortest(a, b);
    if |a| >= 4 && |b| >= 4 {
      LongWordScore(a, b);
      LeftAlone(WordScore(a, b), Edits(s), Longer(a, b));
    }
  }

  /** What n of so many letters leave, as a score. */
  predicate IsRest(score: real, n: int, letters: int) {
    score * letters as real == (letters - n) as real
  }

  lemma SomeShortest(a: string, b: string) returns (s: Script)
    ensures Shortest(s, a, b) && Edits(s) == Lev(a, b)
  {
    LevIsShortestScript(a, b);
    s :| Apply(s, a) == Some(b) && Edits(s) == Lev(a, b);
  }

  lemma LongWordScore(a: string, b: string)
    requires a != b && |a| >= 4 && |b| >= 4
    ensures WordScore(a, b) == 1.0 - Lev(a, b) as real / Longer(a, b) as real
  {
  }

  lemma LeftAlone(score: real, n: nat, longer: nat)
    requires longer > 0 && score == 1.0 - n as real / longer as real
    ensures IsRest(score, n, longer)
  {
    var q := n as real / longer as real;
    assert q * longer as real == n as real;
    assert (1.0 - q) * longer as real == longer as real - q * longer as real;
  }

  // ----- greedy -----

  /** Taken by one of the first i words of a. */
  predicate TakenBefore(picks: seq<int>, i: nat, j: int) {
    exists k :: 0 <= k < i <= |picks| && picks[k] == j
  }

  /** Each word in turn takes the first of the best words that are still free and agree with
      it, and none only when there is none. */
  ghost predicate GreedyAt(a: seq<string>, b: seq<string>, picks: seq<int>, i: nat)
    requires i < |a| == |picks|
  {
    var p := picks[i];
    && -1 <= p < |b|
    && (p >= 0 ==> !TakenBefore(picks, i, p) && Compatible(a[i], b[p]))
    && (forall j :: 0 <= j < |b| && !TakenBefore(picks, i, j) && Compatible(a[i], b[j]) ==>
          && p >= 0 && WordScore(a[i], b[j]) <= WordScore(a[i], b[p])
          && (j < p ==> WordScore(a[i], b[j]) < WordScore(a[i], b[p])))
  }

  lemma UsedMeansTaken(a: seq<string>, b: seq<string>, i: nat, j: int)
    requires i < |a| && j >= 0
    ensures j in Used(Picks(a, b, i)) <==> TakenBefore(Alignment(a, b), i, j)
  {
    PicksPrefix(a, b, i, |a|);
    var picks := Alignment(a, b);
    assert Picks(a, b, i) == picks[..i];
    if j in Used(Picks(a, b, i)) {
      var k :| 0 <= k < i && picks[..i][k] == j;
      assert picks[k] == j;
    }
    if k :| 0 <= k < i && picks[k] == j {
      assert picks[..i][k] == j;
    }
  }

  lemma AlignmentIsGreedy(a: seq<string>, b: seq<string>, i: nat)
    requires i < |a|
    ensures GreedyAt(a, b, Alignment(a, b), i)
  {
    var picks, used := Alignment(a, b), Used(Picks(a, b, i));
    var p := picks[i];
    PickAt(a, b, i);
    PartnerIsFree(a[i], b, used, |b|);
    if p >= 0 {
      UsedMeansTaken(a, b, i, p);
    }
    forall j | 0 <= j < |b| && !TakenBefore(picks, i, j) && Compatible(a[i], b[j])
      ensures p >= 0 && WordScore(a[i], b[j]) <= WordScore(a[i], b[p])
      ensures j < p ==> WordScore(a[i], b[j]) < WordScore(a[i], b[p])
    {
      UsedMeansTaken(a, b, i, j);
      PartnerIsBest(a[i], b, used, |b|, j);
    }
  }

  // ----- the score -----

  /** Two different titles that get as far as the alignment. */
  predicate Scored(left: string, right: string) {
    && left != [] && right != [] && left != right
    && |left| >= 8 && |right| >= 8 && |MatchedLeft(Alignment(TokensOf(left), TokensOf(right)))| >= 2
  }

  lemma ScoredHasWords(left: string, right: string)
    requires Scored(left, right)
    ensures TokensOf(left) != [] && TokensOf(right) != []
    ensures Matched(TokensOf(left), TokensOf(right)) == |MatchedLeft(Alignment(TokensOf(left), TokensOf(right)))|
  {
    var a, b := TokensOf(left), TokensOf(right);
    SidesAgree(a, b, |a|);
    MatchedBounds(a, b);
  }

  lemma RealQuotient(score: real, x: real, y: real)
    requires y > 0.0 && x >= 0.0 && score == x / y
    ensures score * y == x
    ensures x > 0.0 ==> score > 0.0
    ensures score == 1.0 <==> x == y
  {
  }

  /** A share of so many words: the score times the words. */
  predicate IsShare(score: real, marked: nat, words: nat) {
    score * words as real == marked as real
  }

  lemma Quotient(score: real, x: nat, y: nat)
    requires y > 0 && score == 2.0 * x as real / y as real
    ensures IsShare(score, 2 * x, y)
    ensures x > 0 ==> score > 0.0
    ensures score == 1.0 <==> 2 * x == y
  {
    RealQuotient(score, 2.0 * x as real, y as real);
    assert 2.0 * x as real == (2 * x) as real;
  }

  /** The score, over all content words of both titles, counts the words matched on the
      left and on the right. */
  lemma ScoreCounts(left: string, right: string)
    requires Scored(left, right)
    ensures var a, b := TokensOf(left), TokensOf(right);
            var picks := Alignment(a, b);
            && IsShare(Score(left, right), |MatchedLeft(picks)| + |Used(picks)|, |a| + |b|)
            && Score(left, right) > 0.0
  {
    var a, b := TokensOf(left), TokensOf(right);
    ScoredHasWords(left, right);
    ScoreOfScored(left, right);
    Quotient(Score(left, right), Matched(a, b), |a| + |b|);
  }

  lemma ScoreOfScored(left: string, right: string)
    requires Scored(left, right)
    ensures var a, b := TokensOf(left), TokensOf(right);
            |a| + |b| > 0 && Score(left, right) == 2.0 * Matched(a, b) as real / (|a| + |b|) as real
  {
    ScoredHasWords(left, right);
  }

  /** It is 0 for an empty title, and for different titles one of which is short or that
      have fewer than two words matched, and for no others. */
  lemma ScoreIsZero(left: string, right: string)
    ensures Score(left, right) == 0.0 <==>
              || left == [] || right == []
              || (left != right && (|left| < 8 || |right| < 8
                                    || |MatchedLeft(Alignment(TokensOf(left), TokensOf(right)))| < 2))
  {
    var a, b := TokensOf(left), TokensOf(right);
    if Scored(left, right) {
      ScoreCounts(left, right);
    } else {
      SidesAgree(a, b, |a|);
    }
  }

  /** All words are marked. */
  ghost predicate Whole(marked: set<int>, n: nat) {
    forall i :: 0 <= i < n ==> i in marked
  }

  lemma WholeCount(marked: set<int>, n: nat)
    requires forall i :: i in marked ==> 0 <= i < n
    ensures |marked| <= n && (|marked| == n <==> Whole(marked, n))
  {
    SubsetOfRange(marked, n);
    if Whole(marked, n) {
      WholeIsFull(marked, n);
    } else {
      var i :| 0 <= i < n && i !in marked;
      AddOne(marked, i);
      SubsetOfRange(marked + {i}, n);
    }
  }

  lemma {:induction false} WholeIsFull(marked: set<int>, n: nat)
    requires Whole(marked, n)
    ensures n <= |marked|
    decreases n
  {
    if n > 0 {
      RemoveOne(marked, n - 1);
      WholeIsFull(marked - {n - 1}, n - 1);
    }
  }

  /** Different titles score 1 exactly when they are scored and every content word of both
      is matched. */
  lemma ScoreIsOne(left: string, right: string)
    requires left != right
    ensures var a, b := TokensOf(left), TokensOf(right);
            var picks := Alignment(a, b);
            Score(left, right) == 1.0 <==>
              Scored(left, right) && Whole(MatchedLeft(picks), |a|) && Whole(Used(picks), |b|)
  {
    var a, b := TokensOf(left), TokensOf(right);
    var picks := Alignment(a, b);
    ScoreIsZero(left, right);
    WholeCount(MatchedLeft(picks), |a|);
    WholeCount(Used(picks), |b|);
    SidesAgree(a, b, |a|);
    if Scored(left, right) {
      ScoredHasWords(left, right);
      ScoreOfScored(left, right);
      Quotient(Score(left, right), Matched(a, b), |a| + |b|);
    }
  }

  // ----- the words of a title -----

  lemma {:induction false} FieldsWord(w: string, s: string, word: string)
    requires forall i :: 0 <= i < |w| ==> !IsSpace(w[i])
    ensures Fields(w + s, word) == Fields(s, word + w)
    decreases w
  {
    if w == [] {
      assert w + s == s && word + w == word;
    } else {
      FieldsWord(w[1..], s, word + [w[0]]);
      assert (w + s)[1..] == w[1..] + s;
      assert word + [w[0]] + w[1..] == word + w;
    }
  }

  /** White space separates, wherever it stands. */
  lemma {:induction false} FieldsSplit(s: string, c: char, t: string, word: string)
    requires IsSpace(c)
    ensures Fields(s + [c] + t, word) == Fields(s, word) + Fields(t, [])
    decreases s
  {
    var all := s + [c] + t;
    if s == [] {
      assert all[0] == c && all[1..] == t;
    } else {
      assert all[0] == s[0] && all[1..] == s[1..] + [c] + t;
      if IsSpace(s[0]) {
        FieldsSplit(s[1..], c, t, []);
      } else {
        FieldsSplit(s[1..], c, t, word + [s[0]]);
      }
    }
  }

  /** A text without white space is one word, or none. */
  lemma FieldsOne(w: string)
    requires forall i :: 0 <= i < |w| ==> !IsSpace(w[i])
    ensures Fields(w, []) == if w == [] then [] else [w]
  {
    FieldsWord(w, [], []);
    assert w + [] == w && [] + w == w;
  }

  lemma {:induction false} ContentConcat(s: seq<string>, t: seq<string>)
    ensures ContentWords(s + t) == ContentWords(s) + ContentWords(t)
    decreases t
  {
    if t == [] {
      assert s + t == s;
    } else {
      ContentConcat(s, t[..|t| - 1]);
      assert (s + t)[..|s + t| - 1] == s + t[..|t| - 1] && (s + t)[|s + t| - 1] == t[|t| - 1];
    }
  }

  /** The tokens of a title are those of its parts; one word is its own token unless it is a
      stopword. */
  lemma TokensSplit(s: string, c: char, t: string)
    requires IsSpace(c)
    ensures TokensOf(s + [c] + t) == TokensOf(s) + TokensOf(t)
  {
    FieldsSplit(s, c, t, []);
    ContentConcat(Fields(s, []), Fields(t, []));
  }

  lemma TokensOfWord(w: string)
    requires forall i :: 0 <= i < |w| ==> !IsSpace(w[i])
    ensures TokensOf(w) == if w == [] || w in STOP then [] else [w]
  {
    FieldsOne(w);
    if w != [] {
      OneWord(w);
    }
  }

  lemma OneWord(w: string)
    ensures ContentWords([w]) == if w in STOP then [] else [w]
  {
    var parts := [w];
    assert parts[..|parts| - 1] == [] && ContentWords([]) == [];
  }
}
