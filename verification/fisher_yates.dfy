/**
 * The Fisher–Yates (Knuth) shuffle used by both questionnaire randomizers.
 * `Math.random` is replaced by a sequence of choices: iteration `i` swaps
 * position `i` with position `choices[i]`, and every choice lies in `[0, i]`.
 * All properties below hold for every such sequence of choices.
 */
module FisherYates {
  import opened Sequences

  /** Choices usable for a sequence of length `n`: iteration `i` picks `j` with `0 <= j <= i`. */
  predicate ValidChoices(choices: seq<nat>, n: nat) {
    |choices| == n && forall i :: 0 <= i < n ==> choices[i] <= i
  }

  /** Exchange the elements at positions `i` and `j`. */
  function Swap<T>(s: seq<T>, i: nat, j: nat): (r: seq<T>)
    requires i < |s| && j < |s|
    ensures |r| == |s|
  {
    s[i := s[j]][j := s[i]]
  }

  /** The sequence after iterations `i`, `i - 1`, ..., `1` of the shuffle loop have run on `s`. */
  function Pass<T>(s: seq<T>, choices: seq<nat>, i: nat): (r: seq<T>)
    requires i < |s| && ValidChoices(choices, |s|)
    ensures |r| == |s|
    decreases i
  {
    if i == 0 then s else Pass(Swap(s, i, choices[i]), choices, i - 1)
  }

  /** The whole shuffle: the loop runs `i` from `|s| - 1` down to `1`, and not at all on an empty sequence. */
  function Shuffle<T>(s: seq<T>, choices: seq<nat>): (r: seq<T>)
    requires ValidChoices(choices, |s|)
    ensures |r| == |s|
  {
    if |s| == 0 then s else Pass(s, choices, |s| - 1)
  }

  /** A swap exchanges two elements and loses or duplicates none. */
  lemma SwapPermutes<T>(s: seq<T>, i: nat, j: nat)
    requires i < |s| && j < |s|
    ensures multiset(Swap(s, i, j)) == multiset(s)
  {
  }

  /** Every prefix of the loop only permutes the sequence. */
  lemma {:induction false} PassPermutes<T>(s: seq<T>, choices: seq<nat>, i: nat)
    requires i < |s| && ValidChoices(choices, |s|)
    ensures multiset(Pass(s, choices, i)) == multiset(s)
    decreases i
  {
    if i > 0 {
      SwapPermutes(s, i, choices[i]);
      PassPermutes(Swap(s, i, choices[i]), choices, i - 1);
    }
  }

  /** The shuffle is a permutation: same length, same elements with the same multiplicities. */
  lemma ShufflePermutes<T>(s: seq<T>, choices: seq<nat>)
    requires ValidChoices(choices, |s|)
    ensures multiset(Shuffle(s, choices)) == multiset(s)
  {
    if |s| > 0 {
      PassPermutes(s, choices, |s| - 1);
    }
  }

  /** Every element of the shuffled sequence comes from the input, so whole elements stay intact. */
  lemma ShuffleKeepsElements<T>(s: seq<T>, choices: seq<nat>)
    requires ValidChoices(choices, |s|)
    ensures forall k :: 0 <= k < |s| ==> Shuffle(s, choices)[k] in s
  {
    ShufflePermutes(s, choices);
    var r := Shuffle(s, choices);
    forall k | 0 <= k < |s|
      ensures r[k] in s
    {
      assert r[k] in multiset(r);
    }
  }

  /** The iterations `i, ..., 1` never write a position `k` above `i`. */
  lemma {:induction false} PassKeepsSuffix<T>(s: seq<T>, choices: seq<nat>, i: nat, k: nat)
    requires i < k < |s| && ValidChoices(choices, |s|)
    ensures Pass(s, choices, i)[k] == s[k]
    decreases i
  {
    if i > 0 {
      PassKeepsSuffix(Swap(s, i, choices[i]), choices, i - 1, k);
    }
  }

  /**
   * The loop as the source writes it: a temporary holds `a[i]` while `a[j]`
   * moves up, then the temporary goes to `j`.
   */
  method ShuffleLoop<T>(s: seq<T>, choices: seq<nat>) returns (r: seq<T>)
    requires ValidChoices(choices, |s|)
    ensures r == Shuffle(s, choices)
    ensures multiset(r) == multiset(s)
  {
    r := s;
    if |s| == 0 {
      return;
    }
    var i := |s| - 1;
    while i > 0
      invariant 0 <= i < |s| && |r| == |s|
      invariant Pass(r, choices, i) == Shuffle(s, choices)
      invariant forall k :: i < k < |s| ==> r[k] == Shuffle(s, choices)[k]
    {
      var j := choices[i];
      var k := r[i];
      r := r[i := r[j]];
      r := r[j := k];
      forall k | i - 1 < k < |s|
        ensures r[k] == Shuffle(s, choices)[k]
      {
        PassKeepsSuffix(r, choices, i - 1, k);
      }
      i := i - 1;
    }
    ShufflePermutes(s, choices);
  }

  /** Projecting every element commutes with a swap. */
  lemma MapSwap<A, B>(f: A -> B, s: seq<A>, i: nat, j: nat)
    requires i < |s| && j < |s|
    ensures Map(f, Swap(s, i, j)) == Swap(Map(f, s), i, j)
  {
  }

  /** Projecting every element and shuffling commute: the shuffle only moves whole elements. */
  lemma {:induction false} MapPass<A, B>(f: A -> B, s: seq<A>, choices: seq<nat>, i: nat)
    requires i < |s| && ValidChoices(choices, |s|)
    ensures Map(f, Pass(s, choices, i)) == Pass(Map(f, s), choices, i)
    decreases i
  {
    if i > 0 {
      var t := Swap(s, i, choices[i]);
      MapSwap(f, s, i, choices[i]);
      MapPass(f, t, choices, i - 1);
    }
  }

  /** The whole-shuffle form of `MapPass`. */
  lemma MapShuffle<A, B>(f: A -> B, s: seq<A>, choices: seq<nat>)
    requires ValidChoices(choices, |s|)
    ensures Map(f, Shuffle(s, choices)) == Shuffle(Map(f, s), choices)
  {
    if |s| > 0 {
      MapPass(f, s, choices, |s| - 1);
    }
  }

  /** A projection of the shuffled sequence is a permutation of the projection of the input. */
  lemma MapShufflePermutes<A, B>(f: A -> B, s: seq<A>, choices: seq<nat>)
    requires ValidChoices(choices, |s|)
    ensures multiset(Map(f, Shuffle(s, choices))) == multiset(Map(f, s))
  {
    MapShuffle(f, s, choices);
    ShufflePermutes(Map(f, s), choices);
  }
}
