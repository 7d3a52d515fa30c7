/**
 * The self-contained client variant. Its randomizer keeps every item's id
 * in place and shuffles only the statement texts, separately among the
 * odd-id items and among the even-id items, so every statement keeps the
 * scoring polarity of the id it was written for. The odd and even lists are
 * `filter` results that share their objects with the global item array, so
 * the statement swaps rewrite the global array too; the model returns the
 * global array afterwards alongside the array that is shown.
 */
module StatementShuffle {
  import opened Wrappers
  import opened FisherYates
  import opened Questionnaire
  import opened SusScore
  import opened Form
  import opened ResultText

  /** The items whose id parity is `odd`, in array order. */
  function Filter(items: seq<Item>, odd: bool): (r: seq<Item>)
    ensures |r| <= |items|
    ensures forall k :: 0 <= k < |r| ==> IsOddId(r[k].id) == odd
    decreases |items|
  {
    if items == [] then []
    else (if IsOddId(items[0].id) == odd then [items[0]] else []) + Filter(items[1..], odd)
  }

  /** The same items carrying new statements, in order. */
  function WithStatements(items: seq<Item>, statements: seq<string>): (r: seq<Item>)
    requires |statements| == |items|
    ensures |r| == |items|
    ensures Ids(r) == Ids(items) && Statements(r) == statements
  {
    seq(|items|, k requires 0 <= k < |items| => Item(items[k].id, statements[k]))
  }

  /**
   * The global array after the swaps: the `k`-th odd-id object receives the
   * `k`-th statement of `odds`, the `k`-th even-id object the `k`-th
   * statement of `evens`; ids and positions do not change.
   */
  function WriteBack(items: seq<Item>, odds: seq<string>, evens: seq<string>): (r: seq<Item>)
    requires |odds| == |Filter(items, true)| && |evens| == |Filter(items, false)|
    ensures |r| == |items|
    ensures forall k :: 0 <= k < |items| ==> r[k].id == items[k].id
    decreases |items|
  {
    if items == [] then []
    else if IsOddId(items[0].id) then [Item(items[0].id, odds[0])] + WriteBack(items[1..], odds[1..], evens)
    else [Item(items[0].id, evens[0])] + WriteBack(items[1..], odds, evens[1..])
  }

  /** Giving new statements commutes with putting one more item in front. */
  lemma WithStatementsCons(x: Item, xs: seq<Item>, s: string, ss: seq<string>)
    requires |ss| == |xs|
    ensures WithStatements([x] + xs, [s] + ss) == [Item(x.id, s)] + WithStatements(xs, ss)
  {
  }

  /** Filtering the written-back array for odd ids gives the odd-id objects with the statements `odds`. */
  lemma {:induction false} WriteBackOdds(items: seq<Item>, odds: seq<string>, evens: seq<string>)
    requires |odds| == |Filter(items, true)| && |evens| == |Filter(items, false)|
    ensures Filter(WriteBack(items, odds, evens), true) == WithStatements(Filter(items, true), odds)
    decreases |items|
  {
    if items != [] {
      var x := items[0];
      var rest := items[1..];
      var r := WriteBack(items, odds, evens);
      if IsOddId(x.id) {
        var tail := WriteBack(rest, odds[1..], evens);
        assert r == [Item(x.id, odds[0])] + tail;
        assert r[1..] == tail;
        WriteBackOdds(rest, odds[1..], evens);
        assert Filter(items, true) == [x] + Filter(rest, true);
        assert odds == [odds[0]] + odds[1..];
        WithStatementsCons(x, Filter(rest, true), odds[0], odds[1..]);
      } else {
        var tail := WriteBack(rest, odds, evens[1..]);
        assert r[1..] == tail;
        WriteBackOdds(rest, odds, evens[1..]);
      }
    }
  }

  /** Filtering the written-back array for even ids gives the even-id objects with the statements `evens`. */
  lemma {:induction false} WriteBackEvens(items: seq<Item>, odds: seq<string>, evens: seq<string>)
    requires |odds| == |Filter(items, true)| && |evens| == |Filter(items, false)|
    ensures Filter(WriteBack(items, odds, evens), false) == WithStatements(Filter(items, false), evens)
    decreases |items|
  {
    if items != [] {
      var x := items[0];
      var rest := items[1..];
      var r := WriteBack(items, odds, evens);
      if IsOddId(x.id) {
        var tail := WriteBack(rest, odds[1..], evens);
        assert r[1..] == tail;
        WriteBackEvens(rest, odds[1..], evens);
      } else {
        var tail := WriteBack(rest, odds, evens[1..]);
        assert r == [Item(x.id, evens[0])] + tail;
        assert r[1..] == tail;
        WriteBackEvens(rest, odds, evens[1..]);
        assert Filter(items, false) == [x] + Filter(rest, false);
        assert evens == [evens[0]] + evens[1..];
        WithStatementsCons(x, Filter(rest, false), evens[0], evens[1..]);
      }
    }
  }

  /** Filtering the written-back array gives the filtered objects with their new statements. */
  lemma WriteBackFilter(items: seq<Item>, odds: seq<string>, evens: seq<string>)
    requires |odds| == |Filter(items, true)| && |evens| == |Filter(items, false)|
    ensures Filter(WriteBack(items, odds, evens), true) == WithStatements(Filter(items, true), odds)
    ensures Filter(WriteBack(items, odds, evens), false) == WithStatements(Filter(items, false), evens)
  {
    WriteBackOdds(items, odds, evens);
    WriteBackEvens(items, odds, evens);
  }

  /** The merge loop: `odds[0], evens[0], odds[1], evens[1], ...`. */
  function Interleave(odds: seq<Item>, evens: seq<Item>): (r: seq<Item>)
    requires |odds| == |evens|
    ensures |r| == 2 * |odds|
    decreases |odds|
  {
    if odds == [] then [] else [odds[0], evens[0]] + Interleave(odds[1..], evens[1..])
  }

  /** Position `2k` of the merged array holds `odds[k]` and position `2k + 1` holds `evens[k]`. */
  lemma {:induction false} InterleaveAt(odds: seq<Item>, evens: seq<Item>, k: nat)
    requires |odds| == |evens| && k < |odds|
    ensures Interleave(odds, evens)[2 * k] == odds[k]
    ensures Interleave(odds, evens)[2 * k + 1] == evens[k]
    decreases k
  {
    if k > 0 {
      InterleaveAt(odds[1..], evens[1..], k - 1);
      var rest := Interleave(odds[1..], evens[1..]);
      assert Interleave(odds, evens) == [odds[0], evens[0]] + rest;
      assert 2 * k == 2 * (k - 1) + 2;
    }
  }

  /** What one randomisation produces: the array to show, and the global array afterwards. */
  datatype Randomized = Randomized(shown: seq<Item>, global: seq<Item>)

  /**
   * The statement-only randomizer. The global array keeps every id at its
   * position, the odd-id statements and the even-id statements are each
   * permuted among themselves, and the array shown consists of the global
   * array's own odd-id and even-id objects, interleaved.
   */
  function RandomizeStatements(global: seq<Item>, oddChoices: seq<nat>, evenChoices: seq<nat>): (r: Randomized)
    requires |Filter(global, true)| == |Filter(global, false)|
    requires ValidChoices(oddChoices, |Filter(global, true)|)
    requires ValidChoices(evenChoices, |Filter(global, false)|)
    ensures Ids(r.global) == Ids(global)
    ensures Filter(r.global, true) == WithStatements(Filter(global, true), Shuffle(Statements(Filter(global, true)), oddChoices))
    ensures Filter(r.global, false) == WithStatements(Filter(global, false), Shuffle(Statements(Filter(global, false)), evenChoices))
    ensures r.shown == Interleave(Filter(r.global, true), Filter(r.global, false))
    ensures |r.shown| == 2 * |Filter(global, true)|
  {
    var odds := Filter(global, true);
    var evens := Filter(global, false);
    var oddStatements := Shuffle(Statements(odds), oddChoices);
    var evenStatements := Shuffle(Statements(evens), evenChoices);
    var written := WriteBack(global, oddStatements, evenStatements);
    WriteBackFilter(global, oddStatements, evenStatements);
    Randomized(Interleave(WithStatements(odds, oddStatements), WithStatements(evens, evenStatements)), written)
  }

  /** Within each parity class, the statements afterwards are a permutation of the statements before. */
  lemma StatementsPermutedWithinParity(global: seq<Item>, oddChoices: seq<nat>, evenChoices: seq<nat>, odd: bool)
    requires |Filter(global, true)| == |Filter(global, false)|
    requires ValidChoices(oddChoices, |Filter(global, true)|)
    requires ValidChoices(evenChoices, |Filter(global, false)|)
    ensures var r := RandomizeStatements(global, oddChoices, evenChoices);
            multiset(Statements(Filter(r.global, odd))) == multiset(Statements(Filter(global, odd)))
  {
    ShufflePermutes(Statements(Filter(global, true)), oddChoices);
    ShufflePermutes(Statements(Filter(global, false)), evenChoices);
  }

  /** An item of a given parity is kept by the filter for that parity. */
  lemma {:induction false} InFilter(items: seq<Item>, k: nat)
    requires k < |items|
    ensures items[k] in Filter(items, IsOddId(items[k].id))
    decreases |items|
  {
    if k > 0 {
      InFilter(items[1..], k - 1);
      assert items[1..][k - 1] == items[k];
    }
  }

  /** The statement of an item is among the statements of its own parity class. */
  lemma StatementInOwnClass(items: seq<Item>, k: nat)
    requires k < |items|
    ensures items[k].statement in Statements(Filter(items, IsOddId(items[k].id)))
  {
    InFilter(items, k);
    var f := Filter(items, IsOddId(items[k].id));
    var j :| 0 <= j < |f| && f[j] == items[k];
    assert Statements(f)[j] == items[k].statement;
  }

  /** No statement moves between parity classes: each shown statement keeps its original scoring polarity. */
  lemma NoStatementChangesParity(global: seq<Item>, oddChoices: seq<nat>, evenChoices: seq<nat>, k: nat)
    requires |Filter(global, true)| == |Filter(global, false)|
    requires ValidChoices(oddChoices, |Filter(global, true)|)
    requires ValidChoices(evenChoices, |Filter(global, false)|)
    requires k < |global|
    ensures var g := RandomizeStatements(global, oddChoices, evenChoices).global;
            g[k].statement in Statements(Filter(global, IsOddId(g[k].id)))
  {
    var g := RandomizeStatements(global, oddChoices, evenChoices).global;
    var odd := IsOddId(g[k].id);
    var s := g[k].statement;
    StatementsPermutedWithinParity(global, oddChoices, evenChoices, odd);
    StatementInOwnClass(g, k);
    assert s in multiset(Statements(Filter(g, odd)));
    assert s in multiset(Statements(Filter(global, odd)));
  }

  /** Alternating ids come back in their own order from filter-then-interleave. */
  lemma {:induction false} InterleaveAlternating(items: seq<Item>)
    requires AlternatingIds(Ids(items))
    ensures |Filter(items, true)| == |Filter(items, false)|
    ensures Interleave(Filter(items, true), Filter(items, false)) == items
    decreases |items|
  {
    if items != [] {
      var ids := Ids(items);
      assert IsOddId(ids[0]) && !IsOddId(ids[1]);
      var rest := items[2..];
      forall k | 0 <= k < |rest|
        ensures IsOddId(Ids(rest)[k]) <==> k % 2 == 0
      {
        assert Ids(rest)[k] == ids[k + 2];
      }
      InterleaveAlternating(rest);
      assert items[1..][1..] == rest;
      assert Filter(items, true) == [items[0]] + Filter(rest, true);
      assert Filter(items, false) == [items[1]] + Filter(rest, false);
      assert items == [items[0], items[1]] + rest;
    }
  }

  /**
   * When the global array alternates odd and even ids, starting with an odd
   * one, the merged array shown is the global array itself: no object moves,
   * only statements do.
   */
  lemma AlternatingShownInPlace(global: seq<Item>, oddChoices: seq<nat>, evenChoices: seq<nat>)
    requires AlternatingIds(Ids(global))
    requires ValidChoices(oddChoices, |global| / 2) && ValidChoices(evenChoices, |global| / 2)
    ensures |Filter(global, true)| == |global| / 2 == |Filter(global, false)|
    ensures var r := RandomizeStatements(global, oddChoices, evenChoices);
            r.shown == r.global && Ids(r.shown) == Ids(global)
  {
    InterleaveAlternating(global);
    var r := RandomizeStatements(global, oddChoices, evenChoices);
    assert Ids(r.global) == Ids(global);
    InterleaveAlternating(r.global);
  }

  /**
   * On the canonical table the array shown is the global array itself, in
   * id order 1 to 10, with each statement drawn from its own parity class.
   */
  lemma CanonicalOrderShown(oddChoices: seq<nat>, evenChoices: seq<nat>)
    requires ValidChoices(oddChoices, 5) && ValidChoices(evenChoices, 5)
    ensures |Filter(Table, true)| == 5 == |Filter(Table, false)|
    ensures var r := RandomizeStatements(Table, oddChoices, evenChoices);
            r.shown == r.global && Ids(r.shown) == [1, 2, 3, 4, 5, 6, 7, 8, 9, 10]
  {
    TableIds();
    assert |Table| == 10;
    AlternatingShownInPlace(Table, oddChoices, evenChoices);
  }

  /**
   * Submitting: collect one answer per item of the global array, score
   * them, and show the result text.
   */
  method SubmitQuestionnaire(global: seq<Item>, page: Page) returns (msg: string)
    ensures ReadMessage(msg) == Some(Score(CollectResults(global, page)))
    ensures msg == InvalidText <==> exists k :: 0 <= k < |global| && SubmittedValue(Group(page, global[k].id)).None?
  {
    var results := CollectResults(global, page);
    var score := CalculateScore(results);
    msg := ScoreMessage(score);
  }
}
