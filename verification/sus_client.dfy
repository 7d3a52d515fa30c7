/**
 * The browser client that posts answers to the server. It renders the
 * global item array either in canonical order with numeric labels, or,
 * when the page is opened with `random=true`, after a whole-item
 * Fisher–Yates shuffle of that same global array and without labels.
 */
module SusClient {
  import opened Wrappers
  import opened FisherYates
  import opened Questionnaire
  import opened SusScore
  import opened Form
  import opened ResultText
  import opened SusServer

  /** Randomisation is on exactly when the `random` query parameter is the string "true". */
  predicate IsRandomized(random: Option<string>) {
    random == Some("true")
  }

  /**
   * What one rendering shows: the items in display order and whether
   * numeric labels are shown, plus the global item array afterwards.
   */
  datatype Presentation = Presentation(shown: seq<Item>, labelsShown: bool, global: seq<Item>)

  /**
   * Rendering from the current global array. The shuffle rearranges the
   * global array itself and returns it, so what is shown and the global
   * array agree, and a later rendering starts from the shuffled order.
   */
  function Generate(random: Option<string>, global: seq<Item>, choices: seq<nat>): (p: Presentation)
    requires ValidChoices(choices, |global|)
    ensures p.labelsShown <==> !IsRandomized(random)
    ensures p.shown == p.global
    ensures !IsRandomized(random) ==> p.shown == global
    ensures IsRandomized(random) ==> p.shown == Shuffle(global, choices)
    ensures |p.shown| == |global|
  {
    if IsRandomized(random) then
      var shuffled := Shuffle(global, choices);
      Presentation(shuffled, false, shuffled)
    else
      Presentation(global, true, global)
  }

  /** Every rendering permutes the global array, whole items at a time. */
  lemma GeneratePermutes(random: Option<string>, global: seq<Item>, choices: seq<nat>)
    requires ValidChoices(choices, |global|)
    ensures multiset(Generate(random, global, choices).global) == multiset(global)
    ensures forall k :: 0 <= k < |global| ==> Generate(random, global, choices).shown[k] in global
  {
    if IsRandomized(random) {
      ShufflePermutes(global, choices);
      ShuffleKeepsElements(global, choices);
    }
  }

  /** Two renderings in a row still show a permutation of the original items. */
  lemma RepeatedRenderings(r1: Option<string>, r2: Option<string>, global: seq<Item>, c1: seq<nat>, c2: seq<nat>)
    requires ValidChoices(c1, |global|) && ValidChoices(c2, |global|)
    ensures var g1 := Generate(r1, global, c1).global;
            multiset(Generate(r2, g1, c2).global) == multiset(global)
  {
    GeneratePermutes(r1, global, c1);
    GeneratePermutes(r2, Generate(r1, global, c1).global, c2);
  }

  /** After any shuffle of the canonical table, the ids shown are 1 to 10, each exactly once. */
  lemma ShuffledTableIds(choices: seq<nat>)
    requires ValidChoices(choices, |Table|)
    ensures multiset(Ids(Shuffle(Table, choices))) == multiset{1, 2, 3, 4, 5, 6, 7, 8, 9, 10}
  {
    MapShufflePermutes(IdOf, Table, choices);
    TableIds();
  }

  /**
   * The answers collected after a whole-item shuffle are the canonical
   * answers in shuffled order, so they score the same: each answer still
   * carries its own item's id.
   */
  lemma ShuffleKeepsScore(page: Page, choices: seq<nat>)
    requires ValidChoices(choices, |Table|)
    ensures multiset(CollectResults(Shuffle(Table, choices), page)) == multiset(CollectResults(Table, page))
    ensures Score(CollectResults(Shuffle(Table, choices), page)) == Score(CollectResults(Table, page))
  {
    MapShufflePermutes(AnswerFor(page), Table, choices);
    ScoreOrderIndependent(CollectResults(Shuffle(Table, choices), page), CollectResults(Table, page));
  }

  /** A fully answered Likert page for the canonical table scores between 0 and 100. */
  lemma TableAnswersInRange(page: Page)
    requires LikertPage(page)
    requires AllAnswered(CollectResults(Table, page))
    ensures Score(CollectResults(Table, page)).Some?
    ensures 0.0 <= Score(CollectResults(Table, page)).value <= 100.0
  {
    var rs := CollectResults(Table, page);
    CollectedValuesInScale(Table, page);
    TableAnswerCounts(page);
    ScoreInRange(rs);
  }

  /** The answers collected for the canonical table hold five odd-id and five even-id answers, whatever the page. */
  lemma TableAnswerCounts(page: Page)
    ensures SumBy(CollectResults(Table, page), OddCount) == 5
    ensures SumBy(CollectResults(Table, page), EvenCount) == 5
  {
    var rs := CollectResults(Table, page);
    TableIds();
    assert AnswerIds(rs) == Ids(Table);
    AlternatingCounts(rs);
    assert |rs| == 10;
  }

  /** A fully answered Likert page scores between 0 and 100, whatever order the items were shown in. */
  lemma SubmissionInRange(page: Page, choices: seq<nat>)
    requires ValidChoices(choices, |Table|)
    requires LikertPage(page)
    requires AllAnswered(CollectResults(Table, page))
    ensures Score(CollectResults(Shuffle(Table, choices), page)).Some?
    ensures 0.0 <= Score(CollectResults(Shuffle(Table, choices), page)).value <= 100.0
  {
    ShuffleKeepsScore(page, choices);
    TableAnswersInRange(page);
  }

  /** The text the client shows for the server's response: the score for a success status, otherwise the invalid message. */
  function RemoteMessage(resp: Response): (msg: string)
    requires resp.body.Some? ==> IsHalfPoints(resp.body.value.result)
    requires 200 <= resp.status < 300 ==> resp.body.Some?
    ensures 200 <= resp.status < 300 ==> ReadMessage(msg) == Some(Some(resp.body.value.result))
    ensures !(200 <= resp.status < 300) ==> msg == InvalidText
  {
    if 200 <= resp.status < 300 then ScoreMessage(Some(resp.body.value.result)) else InvalidText
  }

  /** Scoring on the server and showing its response gives the same text as scoring locally. */
  lemma RemoteAgreesWithLocal(rs: seq<Answer>)
    ensures var score := Score(rs);
            (score.Some? ==> IsHalfPoints(score.value)) &&
            RemoteMessage(ScoreResponse(score)) == ScoreMessage(score)
  {
    ScoreIsHalfPoints(rs);
  }
}
