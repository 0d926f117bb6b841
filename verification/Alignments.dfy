/** How good the greedy alignment of words is, against all matchings of compatible words. */
module Alignments {
  import opened Bipartite
  import opened EditDistance
  import opened Sequences
  import opened Titles
  import opened Unicode

  /** Which words of a may be paired with which words of b. */
  ghost function Compatibles(a: seq<string>, b: seq<string>): set<Edge> {
    set i: nat, j: nat | i < |a| && j < |b| && Compatible(a[i], b[j]) :: (i, j)
  }

  lemma CompatiblesMeaning(a: seq<string>, b: seq<string>, e: Edge)
    ensures e in Compatibles(a, b) <==> e.0 < |a| && e.1 < |b| && Compatible(a[e.0], b[e.1])
  {
    if e.0 < |a| && e.1 < |b| && Compatible(a[e.0], b[e.1]) {
      assert e == (e.0, e.1);
    }
  }

  /** A one-to-one pairing of compatible words. */
  ghost predicate IsMatching(a: seq<string>, b: seq<string>, m: set<Edge>) {
    Matching(Compatibles(a, b), m)
  }

  /** The pairs of the greedy alignment. */
  function Greedy(picks: seq<int>): set<Edge> {
    set i: nat | i < |picks| && picks[i] >= 0 :: (i, picks[i])
  }

  lemma GreedyMeaning(picks: seq<int>, e: Edge)
    ensures e in Greedy(picks) <==> e.0 < |picks| && picks[e.0] == e.1
  {
    if e.0 < |picks| && picks[e.0] == e.1 {
      assert e == (e.0, picks[e.0]);
    }
  }

  lemma GreedyAdd(picks: seq<int>, p: int)
    ensures p < 0 ==> Greedy(picks + [p]) == Greedy(picks)
    ensures p >= 0 ==> Greedy(picks + [p]) == Greedy(picks) + {(|picks|, p)} && (|picks|, p) !in Greedy(picks)
  {
    forall e: Edge
      ensures e in Greedy(picks + [p]) <==> e in Greedy(picks) || (p >= 0 && e == (|picks|, p))
    {
      GreedyMeaning(picks + [p], e);
      GreedyMeaning(picks, e);
    }
  }

  lemma {:induction false} GreedyCount(picks: seq<int>)
    ensures |Greedy(picks)| == |MatchedLeft(picks)|
    decreases picks
  {
    if picks != [] {
      var front, p := picks[..|picks| - 1], picks[|picks| - 1];
      GreedyCount(front);
      assert picks == front + [p];
      MatchedLeftAdd(front, p);
      GreedyAdd(front, p);
      if p >= 0 {
        AddOne(Greedy(front), (|front|, p));
      }
    }
  }

  /** The greedy alignment is a maximal matching with as many pairs as words it matches. */
  lemma GreedyIsMaximal(a: seq<string>, b: seq<string>)
    ensures var m := Greedy(Alignment(a, b));
            IsMatching(a, b, m) && Maximal(Compatibles(a, b), m) && |m| == Matched(a, b)
  {
    var picks := Alignment(a, b);
    var m := Greedy(picks);
    AlignmentSound(a, b);
    forall e | e in m
      ensures e in Compatibles(a, b)
    {
      GreedyMeaning(picks, e);
      CompatiblesMeaning(a, b, e);
    }
    forall e, f | e in m && f in m && e != f
      ensures e.0 != f.0 && e.1 != f.1
    {
      GreedyMeaning(picks, e);
      GreedyMeaning(picks, f);
    }
    forall e | e in Compatibles(a, b)
      ensures !LeftFree(m, e.0) || !RightFree(m, e.1)
    {
      CompatiblesMeaning(a, b, e);
      AlignmentMaximal(a, b, e.0, e.1);
      TouchesGreedy(picks, e.0, e.1);
    }
    GreedyCount(picks);
    SidesAgree(a, b, |a|);
  }

  lemma TouchesGreedy(picks: seq<int>, i: nat, j: nat)
    requires i < |picks|
    ensures picks[i] >= 0 ==> !LeftFree(Greedy(picks), i)
    ensures j in Used(picks) ==> !RightFree(Greedy(picks), j)
  {
    if picks[i] >= 0 {
      assert (i, picks[i]) in Greedy(picks);
    }
    if j in Used(picks) {
      var k: nat :| k < |picks| && picks[k] == j;
      assert (k, picks[k]) in Greedy(picks);
    }
  }

  /** Greedy is at least half as good as any matching of compatible words. */
  lemma GreedyIsHalfOptimal(a: seq<string>, b: seq<string>, m: set<Edge>)
    requires IsMatching(a, b, m)
    ensures 2 * Matched(a, b) >= |m|
  {
    GreedyIsMaximal(a, b);
    MaximalIsHalf(Compatibles(a, b), Greedy(Alignment(a, b)), m);
  }

  /** No matching of compatible words has more pairs than greedy finds. */
  ghost predicate GreedyIsOptimal(a: seq<string>, b: seq<string>) {
    forall m :: IsMatching(a, b, m) ==> |m| <= Matched(a, b)
  }

  /** Greedy is optimal if and only if no augmenting path leads from an unmatched word of
      a to an unmatched word of b. */
  lemma OptimalIffNoneAugmenting(a: seq<string>, b: seq<string>)
    ensures GreedyIsOptimal(a, b) <==> NoneAugmenting(Compatibles(a, b), Greedy(Alignment(a, b)))
  {
    GreedyIsMaximal(a, b);
    LargestIffNoneAugmenting(Compatibles(a, b), Greedy(Alignment(a, b)));
    assert GreedyIsOptimal(a, b) <==> Largest(Compatibles(a, b), Greedy(Alignment(a, b)));
  }

  /** Words of a that share a compatible word of b share all of them. */
  predicate NotCrooked(a: seq<string>, b: seq<string>) {
    forall i, j, k, l ::
      (&& 0 <= i < |a| && 0 <= k < |a| && 0 <= j < |b| && 0 <= l < |b|
       && Compatible(a[i], b[j]) && Compatible(a[k], b[j]) && Compatible(a[k], b[l])) ==> Compatible(a[i], b[l])
  }

  /** On words without crooked triples greedy is optimal. */
  lemma NotCrookedIsOptimal(a: seq<string>, b: seq<string>)
    requires NotCrooked(a, b)
    ensures GreedyIsOptimal(a, b)
  {
    var g, m := Compatibles(a, b), Greedy(Alignment(a, b));
    GreedyIsMaximal(a, b);
    forall e, f, h | e in g && f in g && h in g && e.1 == f.1 && f.0 == h.0
      ensures (e.0, h.1) in g
    {
      CompatiblesMeaning(a, b, e);
      CompatiblesMeaning(a, b, f);
      CompatiblesMeaning(a, b, h);
      CompatiblesMeaning(a, b, (e.0, h.1));
    }
    StraightIsLargest(g, m);
  }

  // ----- greedy at its worst -----

  /** A word that greedy pairs with its twin may have been the only partner of the other
      word: greedy then finds one pair where there are two. */
  lemma GreedyCanLose(w: string, y: string, z: string)
    requires w != y && Compatible(w, y) && Compatible(z, w) && !Compatible(z, y)
    ensures Matched([w, z], [w, y]) == 1
    ensures IsMatching([w, z], [w, y], {(0, 1), (1, 0)})
    ensures !GreedyIsOptimal([w, z], [w, y])
  {
    var a, b, m := [w, z], [w, y], {(0, 1), (1, 0)};
    FirstTakesTwin(w, y, z);
    forall e: Edge | e in m
      ensures e in Compatibles(a, b)
    {
      CompatiblesMeaning(a, b, e);
    }
    assert |m| == 2;
  }

  lemma FirstTakesTwin(w: string, y: string, z: string)
    requires w != y && !Compatible(z, y)
    ensures Alignment([w, z], [w, y]) == [0, -1] && Matched([w, z], [w, y]) == 1
  {
    var a, b := [w, z], [w, y];
    WordScoreRange(w, w);
    WordScoreRange(w, y);
    assert Partner(w, b, {}, 1) == 0;
    assert Partner(w, b, {}, 2) == 0;
    assert Picks(a, b, 0) == [] && Used([]) == {};
    assert Picks(a, b, 1) == [0];
    assert Used([0]) == {0};
    assert Partner(z, b, {0}, 1) == -1;
    assert Partner(z, b, {0}, 2) == -1;
    assert Picks(a, b, 2) == [0, -1];
    assert Used([0, -1]) == {0};
  }

  // ----- a pair of titles -----

  /** Different words of five runes are compatible when one substitution joins them. */
  lemma FiveRunes(v: string, w: string)
    requires |v| == |w| == 5 && v != w
    ensures Compatible(v, w) <==> Lev(v, w) <= 1
  {
    assert Max(|v|, |w|) == 5;
    assert WordScore(v, w) == 1.0 - Lev(v, w) as real / 5.0;
  }

  lemma TrainTrail()
    ensures Compatible("train", "trail")
  {
    LevZero("trai", "trai");
    LastStep("trai", 'n', "trai", 'l');
    assert "trai" + ['n'] == "train" && "trai" + ['l'] == "trail";
    assert "train"[4] != "trail"[4];
    FiveRunes("train", "trail");
  }

  /** A common ending costs nothing. */
  lemma {:induction false} SameEnding(v: string, w: string, m: nat)
    requires m <= |v| == |w| && v[m..] == w[m..]
    ensures Lev(v, w) <= Lev(v[..m], w[..m])
    decreases |v|
  {
    if m == |v| {
      assert v[..m] == v && w[..m] == w;
    } else {
      var n := |v| - 1;
      var v', w' := v[..n], w[..n];
      assert v[m..][n - m] == w[m..][n - m];
      assert v'[m..] == v[m..][..n - m] && w'[m..] == w[m..][..n - m];
      SameEnding(v', w', m);
      assert v'[..m] == v[..m] && w'[..m] == w[..m];
    }
  }

  lemma BrainTrain()
    ensures Compatible("brain", "train")
  {
    var v, w := "brain", "train";
    assert v[0] != w[0] && v[..1] == "b" && w[..1] == "t" && v[1..] == w[1..];
    SameEnding(v, w, 1);
    LevBounds("b", "t");
    FiveRunes(v, w);
  }

  lemma BrainTrail()
    ensures !Compatible("brain", "trail")
  {
    var v, w := "brain", "trail";
    assert v[..4] == "brai" && w[..4] == "trai";
    assert v[0] != w[0] && v[4] != w[4];
    LevZero(v[..4], w);
    LevZero(v, w[..4]);
    LevZero(v[..4], w[..4]);
    assert v[..4][0] != w[..4][0] && |v[..4]| != |w| && |v| != |w[..4]|;
    FiveRunes(v, w);
  }

  lemma TrainLoses()
    ensures Matched(["train", "brain"], ["train", "trail"]) == 1
    ensures IsMatching(["train", "brain"], ["train", "trail"], {(0, 1), (1, 0)})
  {
    TrainTrail();
    BrainTrain();
    BrainTrail();
    assert "train"[4] != "trail"[4];
    GreedyCanLose("train", "trail", "brain");
  }

  /** A word without white space is read on to the current word. */
  lemma {:induction false} FieldsWord(word: string, rest: string, done: string)
    requires forall i :: 0 <= i < |word| ==> !IsSpace(word[i])
    ensures Fields(word + rest, done) == Fields(rest, done + word)
    decreases |word|
  {
    if word == [] {
      assert word + rest == rest && done + word == done;
    } else {
      var s := word + rest;
      assert s[0] == word[0] && s[1..] == word[1..] + rest;
      FieldsWord(word[1..], rest, done + [word[0]]);
      assert done + [word[0]] + word[1..] == done + word;
    }
  }

  /** A content word. */
  predicate Plain(w: string) {
    w != [] && w !in STOP && forall i :: 0 <= i < |w| ==> !IsSpace(w[i])
  }

  lemma FiveLetters(w: string)
    requires |w| == 5 && w[0] != 'u' && forall i :: 0 <= i < 5 ==> 'a' <= w[i] <= 'z'
    ensures Plain(w)
  {
    assert "using"[0] == 'u';
  }

  lemma TwoWords(v: string, w: string)
    requires Plain(v) && Plain(w)
    ensures TokensOf(v + " " + w) == [v, w]
  {
    var s := v + " " + w;
    assert s == v + (" " + w);
    FieldsWord(v, " " + w, []);
    assert [] + v == v && (" " + w)[0] == ' ' && (" " + w)[1..] == w && w + [] == w && [] + w == w;
    FieldsWord(w, [], []);
    assert Fields(s, []) == [v] + [w];
    assert [v, w][..1] == [v] && [v] + [w] == [v, w];
    assert ContentWords([v]) == [v];
    assert ContentWords([v, w]) == [v, w];
  }

  /** Two real titles: greedy matches one word, so they score 0, although both words can
      be matched. */
  lemma TrainBrain()
    ensures Score("train brain", "train trail") == 0.0
    ensures IsMatching(TokensOf("train brain"), TokensOf("train trail"), {(0, 1), (1, 0)})
  {
    TrainLoses();
    FiveLetters("train");
    FiveLetters("brain");
    FiveLetters("trail");
    TwoWords("train", "brain");
    TwoWords("train", "trail");
    assert "train" + " " + "brain" == "train brain" && "train" + " " + "trail" == "train trail";
    assert "train brain"[6] != "train trail"[6];
  }
}
