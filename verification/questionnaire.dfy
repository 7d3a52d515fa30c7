/**
 * The static data both front ends share: the ten System Usability Scale
 * items (Brooke, 1996) and the five-point Likert scale offered for each.
 */
module Questionnaire {
  import opened Sequences

  /** One questionnaire item: its fixed id and the statement shown for it. */
  datatype Item = Item(id: int, statement: string)

  /** One point of the Likert scale: radio-button key, visible label and scored value. */
  datatype LikertOption = LikertOption(key: string, labelText: string, value: int)

  /** The scoring polarity of an item: odd ids are positively phrased, even ids negatively. */
  predicate IsOddId(id: int) {
    id % 2 != 0
  }

  function IdOf(item: Item): int {
    item.id
  }

  function StatementOf(item: Item): string {
    item.statement
  }

  /** The ids of a list of items, in order. */
  function Ids(items: seq<Item>): seq<int> {
    Map(IdOf, items)
  }

  /** The statements of a list of items, in order. */
  function Statements(items: seq<Item>): seq<string> {
    Map(StatementOf, items)
  }

  /** Ids that alternate odd, even, odd, ... and come in odd/even pairs, as the canonical table does. */
  predicate AlternatingIds(ids: seq<int>) {
    |ids| % 2 == 0 && forall k :: 0 <= k < |ids| ==> (IsOddId(ids[k]) <==> k % 2 == 0)
  }

  /** The five options offered for every item, in display order. */
  const LikertScale: seq<LikertOption> := [
    LikertOption("stronglydisagree", "Strongly Disagree", 1),
    LikertOption("disagree", "Disagree", 2),
    LikertOption("neutral", "Neutral", 3),
    LikertOption("agree", "Agree", 4),
    LikertOption("stronglyagree", "Strongly Agree", 5)
  ]

  /** A value some Likert option carries, so a value a radio button of the form can submit. */
  predicate IsLikertValue(v: int) {
    exists k :: 0 <= k < |LikertScale| && LikertScale[k].value == v
  }

  /** The canonical questionnaire, in id order. */
  const Table: seq<Item> := [
    Item(1, "I think that I would like to use this system frequently."),
    Item(2, "I found the system unnecessarily complex."),
    Item(3, "I thought the system was easy to use."),
    Item(4, "I think that I would need the support of a technical person to be able to use this system."),
    Item(5, "I found the various functions in this system were well integrated."),
    Item(6, "I thought there was too much inconsistency in this system."),
    Item(7, "I would imagine that most people would learn to use this system very quickly."),
    Item(8, "I found the system very cumbersome to use."),
    Item(9, "I felt very confident using the system."),
    Item(10, "I needed to learn a lot of things before I could get going with this system.")
  ]

  /** The Likert values are exactly 1 to 5. */
  lemma LikertValues(v: int)
    ensures IsLikertValue(v) <==> 1 <= v <= 5
  {
    if 1 <= v <= 5 {
      assert LikertScale[v - 1].value == v;
    }
  }

  /** The canonical table lists the ids 1 to 10 in order, so it alternates odd and even. */
  lemma TableIds()
    ensures Ids(Table) == [1, 2, 3, 4, 5, 6, 7, 8, 9, 10]
    ensures AlternatingIds(Ids(Table))
  {
    var ids := Ids(Table);
    assert ids == [1, 2, 3, 4, 5, 6, 7, 8, 9, 10];
    forall k | 0 <= k < |ids|
      ensures IsOddId(ids[k]) <==> k % 2 == 0
    {
      assert ids[k] == k + 1;
    }
  }
}
