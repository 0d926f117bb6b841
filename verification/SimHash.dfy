/** The 64-bit SimHash: every token votes on every bit and the majority wins.
    The token hash (FNV-1a in the program) is the parameter `hash`. */
module SimHash {
  import opened Sequences
  import opened Words

  type TokenHash = string -> uint64

  const MIN_TOKENS := 96

  /** The votes for bit i minus the votes against it. */
  function Balance(hash: TokenHash, tokens: seq<string>, i: nat): int {
    if tokens == [] then 0
    else
      var last := tokens[|tokens| - 1];
      Balance(hash, tokens[..|tokens| - 1], i)
      + (if last == "" then 0 else if Bit(hash(last), i) then 1 else -1)
  }

  /** The word whose bit i, for i below n, says that bit i was not outvoted. */
  function Assemble(hash: TokenHash, tokens: seq<string>, n: nat): nat {
    if n == 0 then 0
    else
      var rest := Assemble(hash, tokens, n - 1);
      if Balance(hash, tokens, n - 1) >= 0 then Or(rest, ShiftLeft(1, n - 1)) else rest
  }

  function Value(hash: TokenHash, tokens: seq<string>): nat {
    if |tokens| < MIN_TOKENS then 0 else Assemble(hash, tokens, 64)
  }

  method SimHash64(hash: TokenHash, tokens: seq<string>) returns (out: uint64)
    ensures out == Value(hash, tokens)
  {
    if |tokens| < MIN_TOKENS {
      return 0;
    }
    var vec := new int[64](i => 0);
    for k := 0 to |tokens|
      invariant forall i :: 0 <= i < 64 ==> vec[i] == Balance(hash, tokens[..k], i)
    {
      var tok := tokens[k];
      assert tokens[..k + 1][..k] == tokens[..k];
      if tok != "" {
        var h := hash(tok);
        for i := 0 to 64
          invariant forall j :: 0 <= j < i ==> vec[j] == Balance(hash, tokens[..k + 1], j)
          invariant forall j :: i <= j < 64 ==> vec[j] == Balance(hash, tokens[..k], j)
        {
          AndTestsBit(h, i);
          if And(h, ShiftLeft(1, i)) != 0 {
            vec[i] := vec[i] + 1;
          } else {
            vec[i] := vec[i] - 1;
          }
        }
      }
    }
    assert tokens[..|tokens|] == tokens;
    out := 0;
    Pow2Of64();
    for i := 0 to 64
      invariant forall j :: 0 <= j < 64 ==> vec[j] == Balance(hash, tokens, j)
      invariant out == Assemble(hash, tokens, i)
    {
      if vec[i] >= 0 {
        OneBounded(i, 64);
        OrBounded(out, ShiftLeft(1, i), 64);
        out := Or(out, ShiftLeft(1, i));
      }
    }
  }

  // ----- a majority vote -----

  function Empties(tokens: seq<string>): (n: nat)
    ensures n <= |tokens|
  {
    if tokens == [] then 0
    else Empties(tokens[..|tokens| - 1]) + (if tokens[|tokens| - 1] == "" then 1 else 0)
  }

  function InFavour(hash: TokenHash, tokens: seq<string>, i: nat): nat {
    if tokens == [] then 0
    else
      var last := tokens[|tokens| - 1];
      InFavour(hash, tokens[..|tokens| - 1], i) + (if last != "" && Bit(hash(last), i) then 1 else 0)
  }

  lemma {:induction false} BalanceCounts(hash: TokenHash, tokens: seq<string>, i: nat)
    ensures Balance(hash, tokens, i) == 2 * InFavour(hash, tokens, i) - (|tokens| - Empties(tokens))
  {
    if tokens != [] {
      BalanceCounts(hash, tokens[..|tokens| - 1], i);
    }
  }

  lemma {:induction false} AssembledBits(hash: TokenHash, tokens: seq<string>, n: nat, i: nat)
    ensures Bit(Assemble(hash, tokens, n), i) <==> i < n && Balance(hash, tokens, i) >= 0
    decreases n
  {
    if n == 0 {
      ShiftZero(i);
    } else {
      AssembledBits(hash, tokens, n - 1, i);
      BitOr(Assemble(hash, tokens, n - 1), ShiftLeft(1, n - 1), i);
      BitOfOne(n - 1, i);
    }
  }

  /** Bit i is set exactly when at least half of the non-empty tokens hash with bit i set. */
  lemma MajorityVote(hash: TokenHash, tokens: seq<string>, i: nat)
    requires |tokens| >= MIN_TOKENS && i < 64
    ensures Bit(Value(hash, tokens), i)
            <==> 2 * InFavour(hash, tokens, i) >= |tokens| - Empties(tokens)
  {
    AssembledBits(hash, tokens, 64, i);
    BalanceCounts(hash, tokens, i);
  }

  // ----- order and repetition do not matter -----

  lemma {:induction false} BalanceConcat(hash: TokenHash, s: seq<string>, t: seq<string>, i: nat)
    ensures Balance(hash, s + t, i) == Balance(hash, s, i) + Balance(hash, t, i)
    decreases t
  {
    if t == [] {
      assert s + t == s;
    } else {
      assert (s + t)[..|s + t| - 1] == s + t[..|t| - 1];
      BalanceConcat(hash, s, t[..|t| - 1], i);
    }
  }

  lemma {:induction false} BalancePermuted(hash: TokenHash, s: seq<string>, t: seq<string>, i: nat)
    requires multiset(s) == multiset(t)
    ensures Balance(hash, s, i) == Balance(hash, t, i)
    decreases s
  {
    SameLength(s, t);
    if s != [] {
      var k := LastOccurs(s, t);
      BalancePermuted(hash, s[..|s| - 1], Without(t, k), i);
      BalanceConcat(hash, t[..k], t[k + 1..], i);
      BalanceConcat(hash, t[..k], [t[k]], i);
      BalanceConcat(hash, t[..k] + [t[k]], t[k + 1..], i);
      assert t == t[..k] + [t[k]] + t[k + 1..];
    }
  }

  lemma {:induction false} SameSigns(hash: TokenHash, s: seq<string>, t: seq<string>, n: nat)
    requires forall i :: 0 <= i < n ==> (Balance(hash, s, i) >= 0 <==> Balance(hash, t, i) >= 0)
    ensures Assemble(hash, s, n) == Assemble(hash, t, n)
  {
    if n > 0 {
      SameSigns(hash, s, t, n - 1);
    }
  }

  /** Permuting the tokens does not change the hash. */
  lemma OrderIrrelevant(hash: TokenHash, s: seq<string>, t: seq<string>)
    requires multiset(s) == multiset(t)
    ensures Value(hash, s) == Value(hash, t)
  {
    SameLength(s, t);
    forall i: nat | i < 64
      ensures Balance(hash, s, i) == Balance(hash, t, i)
    {
      BalancePermuted(hash, s, t, i);
    }
    SameSigns(hash, s, t, 64);
  }

  function Repeat(tokens: seq<string>, times: nat): seq<string> {
    if times == 0 then [] else Repeat(tokens, times - 1) + tokens
  }

  lemma {:induction false} BalanceRepeat(hash: TokenHash, tokens: seq<string>, times: nat, i: nat)
    ensures Balance(hash, Repeat(tokens, times), i) == times * Balance(hash, tokens, i)
    ensures times > 0 ==> |Repeat(tokens, times)| >= |tokens|
    decreases times
  {
    if times > 0 {
      BalanceRepeat(hash, tokens, times - 1, i);
      BalanceConcat(hash, Repeat(tokens, times - 1), tokens, i);
    }
  }

  /** Repeating a list that is already long enough does not change the hash. */
  lemma RepetitionIrrelevant(hash: TokenHash, tokens: seq<string>, times: nat)
    requires |tokens| >= MIN_TOKENS && times > 0
    ensures Value(hash, Repeat(tokens, times)) == Value(hash, tokens)
  {
    forall i: nat | i < 64
      ensures Balance(hash, Repeat(tokens, times), i) >= 0 <==> Balance(hash, tokens, i) >= 0
    {
      BalanceRepeat(hash, tokens, times, i);
      SignOfProduct(times, Balance(hash, tokens, i));
    }
    BalanceRepeat(hash, tokens, times, 0);
    SameSigns(hash, Repeat(tokens, times), tokens, 64);
  }

  lemma SignOfProduct(n: nat, b: int)
    requires n > 0
    ensures n * b >= 0 <==> b >= 0
  {
  }
}
