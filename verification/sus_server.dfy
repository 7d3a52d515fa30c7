/**
 * The server's `/score` endpoint once the request body has been read and
 * parsed into its `results` array: score the answers, then answer 406 with
 * an empty body for the incomplete marker, or 200 with a JSON body
 * `{name, result}` for a score.
 */
module SusServer {
  import opened Wrappers
  import opened Questionnaire
  import opened SusScore

  const ServerScoreName: string := "SUS Score from Server"
  const JsonContentType: string := "application/json"

  /** The JSON body of a successful response. */
  datatype ScoreBody = ScoreBody(name: string, result: real)

  /** A response: status code, `Content-Type` header when one is set, and the body when there is one. */
  datatype Response = Response(status: int, contentType: Option<string>, body: Option<ScoreBody>)

  /** The status decision of the endpoint. */
  function ScoreResponse(score: Option<real>): (resp: Response)
    ensures resp.status == 406 <==> score.None?
    ensures resp.status == 406 ==> resp.contentType.None? && resp.body.None?
    ensures score.Some? ==> resp.status == 200 && resp.contentType == Some(JsonContentType)
                            && resp.body == Some(ScoreBody(ServerScoreName, score.value))
  {
    match score
    case None => Response(406, None, None)
    case Some(r) => Response(200, Some(JsonContentType), Some(ScoreBody(ServerScoreName, r)))
  }

  /**
   * The endpoint on a parsed request: 406 exactly when some answer lacks a
   * value, otherwise 200 carrying the score of the answers.
   */
  method RoutingScore(results: seq<Answer>) returns (resp: Response)
    ensures resp.status == 406 <==> exists k :: 0 <= k < |results| && results[k].value.None?
    ensures resp.status == 406 || resp.status == 200
    ensures resp.status == 406 ==> resp.contentType.None? && resp.body.None?
    ensures resp.status == 200 ==> resp.contentType == Some(JsonContentType)
    ensures resp.status == 200 ==> resp.body.Some? && Some(resp.body.value.result) == Score(results)
                                   && resp.body.value.name == ServerScoreName
    ensures resp.body.Some? ==> IsHalfPoints(resp.body.value.result)
  {
    var score := CalculateScore(results);
    resp := ScoreResponse(score);
  }

  /** A complete answer set of ten in-scale values, five odd ids and five even, gets 200 with a score in [0, 100]. */
  lemma CompleteAnswersAccepted(results: seq<Answer>)
    requires forall k :: 0 <= k < |results| ==> results[k].value.Some? && 1 <= results[k].value.value <= 5
    requires SumBy(results, OddCount) == 5 && SumBy(results, EvenCount) == 5
    ensures ScoreResponse(Score(results)).status == 200
    ensures 0.0 <= ScoreResponse(Score(results)).body.value.result <= 100.0
  {
    ScoreInRange(results);
  }

  /** The best-case answers: 5 for every odd id and 1 for every even id. */
  function BestCase(): seq<Answer> {
    seq(10, k requires 0 <= k < 10 => Answer(k + 1, Some(if k % 2 == 0 then 5 else 1)))
  }

  /** The best-case answers score 100 and are accepted. */
  lemma BestCaseAccepted()
    ensures ScoreResponse(Score(BestCase())).status == 200
    ensures ScoreResponse(Score(BestCase())).body.value.result == 100.0
  {
    var rs := BestCase();
    assert AlternatingIds(AnswerIds(rs)) by {
      forall k | 0 <= k < 10
        ensures IsOddId(AnswerIds(rs)[k]) <==> k % 2 == 0
      {
        assert AnswerIds(rs)[k] == k + 1;
      }
    }
    forall k | 0 <= k < 10
      ensures rs[k].value.Some? && Contribution(rs[k]) == 4
    {
      assert rs[k] == Answer(k + 1, Some(if k % 2 == 0 then 5 else 1));
    }
    AlternatingCounts(rs);
    AllFours(rs);
    ScoreIsContributionSum(rs);
  }

  /** Answers that each contribute 4 sum to 4 per answer. */
  lemma {:induction false} AllFours(rs: seq<Answer>)
    requires forall k :: 0 <= k < |rs| ==> Contribution(rs[k]) == 4
    ensures SumBy(rs, Contribution) == 4 * |rs|
  {
    if rs != [] {
      AllFours(rs[1..]);
    }
  }
}
