/** The two-row Levenshtein computation, checked against edit scripts. */
module EditDistance {
  import opened Options

  function Min(x: int, y: int): int {
    if y < x then y else x
  }

  function Max(x: int, y: int): int {
    if y > x then y else x
  }

  function Cost(x: char, y: char): nat {
    if x == y then 0 else 1
  }

  /** Levenshtein's recurrence on the last runes of the two words. */
  function Lev(a: string, b: string): nat
    decreases |a| + |b|
  {
    if a == [] then |b|
    else if b == [] then |a|
    else
      var a', b' := a[..|a| - 1], b[..|b| - 1];
      Min(Min(Lev(a', b) + 1, Lev(a, b') + 1), Lev(a', b') + Cost(a[|a| - 1], b[|b| - 1]))
  }

  /** The recurrence for prefixes, as the loops visit them. */
  lemma LevPrefix(a: string, i: nat, b: string, j: nat)
    requires 0 < i <= |a| && 0 < j <= |b|
    ensures Lev(a[..i], b[..j]) ==
            Min(Min(Lev(a[..i - 1], b[..j]) + 1, Lev(a[..i], b[..j - 1]) + 1),
                Lev(a[..i - 1], b[..j - 1]) + Cost(a[i - 1], b[j - 1]))
  {
    assert a[..i][..i - 1] == a[..i - 1];
    assert b[..j][..j - 1] == b[..j - 1];
  }

  /** A row of the table: distances from one prefix of a to every prefix of b. */
  ghost predicate Row(row: seq<int>, a: string, b: string, n: nat) {
    n <= |row| && n <= |b| + 1 && forall k :: 0 <= k < n ==> row[k] == Lev(a, b[..k])
  }

  /** The inner loop: fills the row of a[..i] from the row of a[..i - 1]. */
  method FillRow(a: string, i: nat, b: string, prev: array<int>, cur: array<int>)
    requires 0 < i <= |a|
    requires prev != cur && prev.Length == cur.Length == |b| + 1
    requires Row(prev[..], a[..i - 1], b, |b| + 1)
    modifies cur
    ensures Row(cur[..], a[..i], b, |b| + 1)
  {
    cur[0] := i;
    for j := 1 to |b| + 1
      invariant Row(cur[..], a[..i], b, j)
    {
      var cost := 1;
      if a[i - 1] == b[j - 1] {
        cost := 0;
      }
      var del := prev[j] + 1;
      var ins := cur[j - 1] + 1;
      var sub := prev[j - 1] + cost;
      var best := del;
      if ins < best {
        best := ins;
      }
      if sub < best {
        best := sub;
      }
      assert best == Lev(a[..i], b[..j]) by {
        LevPrefix(a, i, b, j);
        assert prev[..][j] == prev[j] && prev[..][j - 1] == prev[j - 1] && cur[..][j - 1] == cur[j - 1];
      }
      ghost var before := cur[..];
      cur[j] := best;
      assert cur[..] == before[j := best];
    }
  }

  method Levenshtein(a: string, b: string) returns (d: nat)
    ensures d == Lev(a, b)
  {
    if |a| == 0 {
      return |b|;
    }
    if |b| == 0 {
      return |a|;
    }
    var prev := new int[|b| + 1](j => 0);
    var cur := new int[|b| + 1](j => 0);
    for j := 0 to |b| + 1
      invariant forall k :: 0 <= k < j ==> prev[k] == k
    {
      prev[j] := j;
    }
    assert a[..0] == [];
    for i := 1 to |a| + 1
      invariant prev != cur && prev.Length == cur.Length == |b| + 1
      invariant fresh(prev) && fresh(cur)
      invariant Row(prev[..], a[..i - 1], b, |b| + 1)
    {
      FillRow(a, i, b, prev, cur);
      prev, cur := cur, prev;
    }
    assert a[..|a|] == a && b[..|b|] == b;
    d := prev[|b|];
  }

  // ----- edit scripts -----

  /** A script edits a word from its last rune to its first. */
  datatype Script =
    | Done
    | Keep(rest: Script)
    | Substitute(to: char, rest: Script)
    | Insert(c: char, rest: Script)
    | Delete(rest: Script)

  /** The edited word, or None when the script does not fit the word. */
  function Apply(s: Script, w: string): Option<string>
    decreases s
  {
    match s
    case Done => if w == [] then Some([]) else None
    case Keep(rest) =>
      if w == [] then None else Append(Apply(rest, w[..|w| - 1]), w[|w| - 1])
    case Substitute(to, rest) =>
      if w == [] then None else Append(Apply(rest, w[..|w| - 1]), to)
    case Insert(c, rest) => Append(Apply(rest, w), c)
    case Delete(rest) =>
      if w == [] then None else Apply(rest, w[..|w| - 1])
  }

  function Append(w: Option<string>, c: char): Option<string> {
    if w.Some? then Some(w.value + [c]) else None
  }

  function Edits(s: Script): nat {
    match s
    case Done => 0
    case Keep(rest) => Edits(rest)
    case Substitute(_, rest) => 1 + Edits(rest)
    case Insert(_, rest) => 1 + Edits(rest)
    case Delete(rest) => 1 + Edits(rest)
  }

  /** One more rune changes the distance by at most one. */
  lemma LevGrow(a: string, b: string, y: char)
    ensures Lev(a, b + [y]) <= Lev(a, b) + 1
  {
  }

  /** No script is shorter than the distance. */
  lemma {:induction false} NoShorterScript(s: Script, a: string)
    requires Apply(s, a).Some?
    ensures Lev(a, Apply(s, a).value) <= Edits(s)
  {
    if s.Insert? {
      NoShorterScript(s.rest, a);
      LevGrow(a, Apply(s.rest, a).value, s.c);
    } else if !s.Done? {
      var a', x := a[..|a| - 1], a[|a| - 1];
      assert a' + [x] == a;
      NoShorterScript(s.rest, a');
      var b' := Apply(s.rest, a').value;
      if s.Substitute? {
        LastStep(a', x, b', s.to);
      } else {
        LastStep(a', x, b', x);
      }
    }
  }

  /** What one step on the last rune can cost. */
  lemma LastStep(a: string, x: char, b: string, y: char)
    ensures Lev(a + [x], b + [y]) <= Lev(a, b) + Cost(x, y)
    ensures Lev(a + [x], b) <= Lev(a, b) + 1
  {
  }

  /** Some script is exactly as long as the distance. */
  lemma {:induction false} ShortestScript(a: string, b: string) returns (s: Script)
    ensures Apply(s, a) == Some(b) && Edits(s) == Lev(a, b)
    decreases |a| + |b|
  {
    if a == [] && b == [] {
      s := Done;
    } else if a == [] {
      var rest := ShortestScript(a, b[..|b| - 1]);
      s := Insert(b[|b| - 1], rest);
    } else if b == [] {
      var rest := ShortestScript(a[..|a| - 1], b);
      s := Delete(rest);
    } else {
      var a', b' := a[..|a| - 1], b[..|b| - 1];
      var x, y := a[|a| - 1], b[|b| - 1];
      if Lev(a, b) == Lev(a', b) + 1 {
        var rest := ShortestScript(a', b);
        s := Delete(rest);
      } else if Lev(a, b) == Lev(a, b') + 1 {
        var rest := ShortestScript(a, b');
        s := Insert(y, rest);
      } else {
        var rest := ShortestScript(a', b');
        s := if x == y then Keep(rest) else Substitute(y, rest);
      }
    }
    assert b != [] ==> b == b[..|b| - 1] + [b[|b| - 1]];
  }

  /** The distance is the length of a shortest script from a to b. */
  lemma LevIsShortestScript(a: string, b: string)
    ensures exists s :: Apply(s, a) == Some(b) && Edits(s) == Lev(a, b)
    ensures forall s :: Apply(s, a) == Some(b) ==> Lev(a, b) <= Edits(s)
  {
    var s := ShortestScript(a, b);
    forall s | Apply(s, a) == Some(b)
      ensures Lev(a, b) <= Edits(s)
    {
      NoShorterScript(s, a);
    }
  }

  // ----- a metric -----

  lemma {:induction false} LevZero(a: string, b: string)
    ensures Lev(a, b) == 0 <==> a == b
    decreases |a| + |b|
  {
    if a != [] && b != [] {
      var a', b' := a[..|a| - 1], b[..|b| - 1];
      assert a == a' + [a[|a| - 1]] && b == b' + [b[|b| - 1]];
      LevZero(a', b');
      assert a == b <==> a' == b' && a[|a| - 1] == b[|b| - 1];
    }
  }

  lemma {:induction false} LevSymmetric(a: string, b: string)
    ensures Lev(a, b) == Lev(b, a)
    decreases |a| + |b|
  {
    if a != [] && b != [] {
      var a', b' := a[..|a| - 1], b[..|b| - 1];
      LevSymmetric(a', b);
      LevSymmetric(a, b');
      LevSymmetric(a', b');
    }
  }

  lemma {:induction false} LevBounds(a: string, b: string)
    ensures |a| - |b| <= Lev(a, b) && |b| - |a| <= Lev(a, b)
    ensures Lev(a, b) <= Max(|a|, |b|)
    decreases |a| + |b|
  {
    if a != [] && b != [] {
      var a', b' := a[..|a| - 1], b[..|b| - 1];
      LevBounds(a', b);
      LevBounds(a, b');
      LevBounds(a', b');
    }
  }

  lemma {:induction false} LevTriangle(a: string, b: string, c: string)
    ensures Lev(a, c) <= Lev(a, b) + Lev(b, c)
    decreases |a| + |b| + |c|
  {
    if a == [] || b == [] || c == [] {
      LevBounds(a, b);
      LevBounds(b, c);
      LevBounds(a, c);
    } else {
      var a', b', c' := a[..|a| - 1], b[..|b| - 1], c[..|c| - 1];
      LevTriangle(a', b, c);
      LevTriangle(a, b, c');
      LevTriangle(a, b', c);
      LevTriangle(a, b', c');
      LevTriangle(a', b', c);
      LevTriangle(a', b', c');
    }
  }
}
