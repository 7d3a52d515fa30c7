/**
 * The System Usability Scale score (Brooke, 1996), computed the way both
 * front ends and the server compute it: one pass over `{id, value}` answers
 * that sums odd-id and even-id values, returning `null` on the first
 * missing value, then `((sumOdd - 5) + (25 - sumEven)) * 2.5`.
 */
module SusScore {
  import opened Wrappers
  import opened Sequences
  import opened Questionnaire

  /** One submitted answer: the item id and the selected Likert value, `None` when nothing was selected. */
  datatype Answer = Answer(id: int, value: Option<int>)

  /** Every answer carries a value. */
  predicate AllAnswered(rs: seq<Answer>) {
    forall k :: 0 <= k < |rs| ==> rs[k].value.Some?
  }

  function ValueOrZero(a: Answer): int {
    match a.value
    case Some(v) => v
    case None => 0
  }

  /** What an answer adds to `sumOdd`. */
  function OddWeight(a: Answer): int {
    if IsOddId(a.id) then ValueOrZero(a) else 0
  }

  /** What an answer adds to `sumEven`. */
  function EvenWeight(a: Answer): int {
    if IsOddId(a.id) then 0 else ValueOrZero(a)
  }

  function OddCount(a: Answer): int {
    if IsOddId(a.id) then 1 else 0
  }

  function EvenCount(a: Answer): int {
    if IsOddId(a.id) then 0 else 1
  }

  /**
   * Brooke's per-item contribution: scale position minus 1 for items 1, 3,
   * 5, 7, 9, and 5 minus the scale position for items 2, 4, 6, 8, 10.
   */
  function Contribution(a: Answer): int {
    if IsOddId(a.id) then ValueOrZero(a) - 1 else 5 - ValueOrZero(a)
  }

  /** The sum of `w` over all answers. */
  function SumBy(rs: seq<Answer>, w: Answer -> int): int {
    if rs == [] then 0 else w(rs[0]) + SumBy(rs[1..], w)
  }

  function SumOdd(rs: seq<Answer>): int {
    SumBy(rs, OddWeight)
  }

  function SumEven(rs: seq<Answer>): int {
    SumBy(rs, EvenWeight)
  }

  /** The score as a closed formula over the whole answer list; `None` is the "incomplete" marker. */
  function Score(rs: seq<Answer>): Option<real> {
    if AllAnswered(rs) then Some(((SumOdd(rs) - 5) + (25 - SumEven(rs))) as real * 2.5) else None
  }

  /** A score that is a whole number of half points, as every computed score is. */
  predicate IsHalfPoints(r: real) {
    (2.0 * r).Floor as real == 2.0 * r
  }

  /** Sums split over concatenation. */
  lemma {:induction false} SumByConcat(a: seq<Answer>, b: seq<Answer>, w: Answer -> int)
    ensures SumBy(a + b, w) == SumBy(a, w) + SumBy(b, w)
    decreases |a|
  {
    if a == [] {
      assert a + b == b;
    } else {
      assert (a + b)[1..] == a[1..] + b;
      SumByConcat(a[1..], b, w);
    }
  }

  /**
   * The source's loop, with its early `return null` on a missing value.
   * Its result is the closed formula, and it is "incomplete" exactly when
   * some answer has no value, whatever the other answers are.
   */
  method CalculateScore(rs: seq<Answer>) returns (score: Option<real>)
    ensures score.None? <==> exists k :: 0 <= k < |rs| && rs[k].value.None?
    ensures score == Score(rs)
    ensures score.Some? ==> IsHalfPoints(score.value)
  {
    var sumOdd := 0;
    var sumEven := 0;
    var i := 0;
    while i < |rs|
      invariant 0 <= i <= |rs|
      invariant AllAnswered(rs[..i])
      invariant sumOdd == SumOdd(rs[..i]) && sumEven == SumEven(rs[..i])
    {
      if rs[i].value.None? {
        return None;
      }
      SumByConcat(rs[..i], [rs[i]], OddWeight);
      SumByConcat(rs[..i], [rs[i]], EvenWeight);
      assert rs[..i + 1] == rs[..i] + [rs[i]];
      if rs[i].id % 2 == 0 {
        sumEven := sumEven + rs[i].value.value;
      } else {
        sumOdd := sumOdd + rs[i].value.value;
      }
      i := i + 1;
    }
    assert rs[..i] == rs;
    score := Some(((sumOdd - 5) + (25 - sumEven)) as real * 2.5);
    ScoreIsHalfPoints(rs);
  }

  /** A whole number times 2.5 is a whole number of half points. */
  lemma WholeTimesTwoAndAHalf(n: int)
    ensures IsHalfPoints(n as real * 2.5)
  {
    assert 2.0 * (n as real * 2.5) == (5 * n) as real;
  }

  /** Every score is a whole number of half points, because the sums are whole numbers. */
  lemma ScoreIsHalfPoints(rs: seq<Answer>)
    ensures Score(rs).Some? ==> IsHalfPoints(Score(rs).value)
  {
    WholeTimesTwoAndAHalf((SumOdd(rs) - 5) + (25 - SumEven(rs)));
  }

  /** Every answer is counted on exactly one side: nothing is counted twice or skipped. */
  lemma {:induction false} SumsPartition(rs: seq<Answer>)
    ensures SumBy(rs, OddCount) + SumBy(rs, EvenCount) == |rs|
    ensures SumOdd(rs) + SumEven(rs) == SumBy(rs, ValueOrZero)
  {
    if rs != [] {
      SumsPartition(rs[1..]);
    }
  }

  /** The aggregate form against the per-item form, for any numbers of odd and even items. */
  lemma {:induction false} ContributionSum(rs: seq<Answer>)
    ensures SumBy(rs, Contribution)
         == (SumOdd(rs) - SumBy(rs, OddCount)) + (5 * SumBy(rs, EvenCount) - SumEven(rs))
  {
    if rs != [] {
      ContributionSum(rs[1..]);
    }
  }

  /**
   * With five odd and five even items, the score is 2.5 times the sum of
   * Brooke's per-item contributions: the constants 5 and 25 are the odd
   * count times 1 and the even count times 5.
   */
  lemma ScoreIsContributionSum(rs: seq<Answer>)
    requires AllAnswered(rs)
    requires SumBy(rs, OddCount) == 5 && SumBy(rs, EvenCount) == 5
    ensures Score(rs) == Some(SumBy(rs, Contribution) as real * 2.5)
  {
    ContributionSum(rs);
  }

  /** Contributions of in-scale answers lie in `[0, 4]`, so their sum lies in `[0, 4 * |rs|]`. */
  lemma {:induction false} ContributionBounds(rs: seq<Answer>)
    requires forall k :: 0 <= k < |rs| ==> 1 <= ValueOrZero(rs[k]) <= 5
    ensures 0 <= SumBy(rs, Contribution) <= 4 * |rs|
  {
    if rs != [] {
      ContributionBounds(rs[1..]);
    }
  }

  /** Ten in-scale answers, five odd and five even, score between 0 and 100. */
  lemma ScoreInRange(rs: seq<Answer>)
    requires forall k :: 0 <= k < |rs| ==> rs[k].value.Some? && 1 <= rs[k].value.value <= 5
    requires SumBy(rs, OddCount) == 5 && SumBy(rs, EvenCount) == 5
    ensures Score(rs).Some?
    ensures 0.0 <= Score(rs).value <= 100.0
  {
    ScoreIsContributionSum(rs);
    SumsPartition(rs);
    ContributionBounds(rs);
  }

  /** Removing one element from a sequence removes its term from the sum. */
  lemma SumByRemove(b: seq<Answer>, k: nat, w: Answer -> int)
    requires k < |b|
    ensures SumBy(b, w) == w(b[k]) + SumBy(b[..k] + b[k + 1..], w)
  {
    assert b == b[..k] + ([b[k]] + b[k + 1..]);
    SumByConcat(b[..k], [b[k]] + b[k + 1..], w);
    SumByConcat(b[..k], b[k + 1..], w);
  }

  /** A sum over answers does not depend on their order. */
  lemma {:induction false} SumByPermutation(a: seq<Answer>, b: seq<Answer>, w: Answer -> int)
    requires multiset(a) == multiset(b)
    ensures SumBy(a, w) == SumBy(b, w)
    decreases |a|
  {
    if a == [] {
      assert |b| == |multiset(b)| == 0;
    } else {
      var x := a[0];
      assert x in multiset(b);
      var k :| 0 <= k < |b| && b[k] == x;
      var rest := b[..k] + b[k + 1..];
      assert b == b[..k] + [x] + b[k + 1..];
      assert multiset(rest) == multiset(b) - multiset{x};
      assert a == [x] + a[1..];
      SumByPermutation(a[1..], rest, w);
      SumByRemove(b, k, w);
    }
  }

  /** The score does not depend on the order of the answers. */
  lemma ScoreOrderIndependent(a: seq<Answer>, b: seq<Answer>)
    requires multiset(a) == multiset(b)
    ensures Score(a) == Score(b)
  {
    SumByPermutation(a, b, OddWeight);
    SumByPermutation(a, b, EvenWeight);
    if AllAnswered(a) {
      forall k | 0 <= k < |b|
        ensures b[k].value.Some?
      {
        assert b[k] in multiset(a);
      }
    }
    if AllAnswered(b) {
      forall k | 0 <= k < |a|
        ensures a[k].value.Some?
      {
        assert a[k] in multiset(b);
      }
    }
  }

  /** Answer lists whose ids alternate odd, even, ... hold as many odd as even items. */
  lemma {:induction false} AlternatingCounts(rs: seq<Answer>)
    requires AlternatingIds(AnswerIds(rs))
    ensures SumBy(rs, OddCount) == |rs| / 2 == SumBy(rs, EvenCount)
    decreases |rs|
  {
    if rs != [] {
      var ids := AnswerIds(rs);
      assert IsOddId(ids[0]) && !IsOddId(ids[1]);
      var rest := rs[2..];
      forall k | 0 <= k < |rest|
        ensures IsOddId(AnswerIds(rest)[k]) <==> k % 2 == 0
      {
        assert AnswerIds(rest)[k] == ids[k + 2];
      }
      AlternatingCounts(rest);
      assert rs[1..][1..] == rest;
    }
  }

  /** The ids of a list of answers, in order. */
  function AnswerIds(rs: seq<Answer>): seq<int> {
    Map(AnswerId, rs)
  }

  function AnswerId(a: Answer): int {
    a.id
  }
}
