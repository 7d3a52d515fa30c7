/**
 * Reading answers back from the rendered form. Each item has one radio
 * group, named after the item id; the DOM lookup becomes a map from item
 * id to that group's radio buttons, in document order.
 */
module Form {
  import opened Wrappers
  import opened Sequences
  import opened Questionnaire
  import opened SusScore

  /** One radio button: whether it is checked, and the Likert value it submits. */
  datatype Radio = Radio(checked: bool, value: int)

  /** The radio groups of the page, by item id; an id without a group has no buttons. */
  type Page = map<int, seq<Radio>>

  function Group(page: Page, id: int): seq<Radio> {
    if id in page then page[id] else []
  }

  /**
   * The source's loop from `acc` on: every checked button overwrites the
   * running result. The result is the value of the last checked button, or
   * `acc` when no button is checked.
   */
  function FoldChecked(acc: Option<int>, radios: seq<Radio>): (r: Option<int>)
    ensures (forall k :: 0 <= k < |radios| ==> !radios[k].checked) ==> r == acc
    ensures forall k :: 0 <= k < |radios| && radios[k].checked
                        && (forall m :: k < m < |radios| ==> !radios[m].checked)
                        ==> r == Some(radios[k].value)
    decreases |radios|
  {
    if radios == [] then acc
    else
      var next := if radios[0].checked then Some(radios[0].value) else acc;
      var r := FoldChecked(next, radios[1..]);
      assert forall k :: 0 < k < |radios| ==> radios[k] == radios[1..][k - 1];
      r
  }

  /**
   * The value submitted for one radio group: `null` when no button is
   * checked, otherwise the value of the last checked button.
   */
  function SubmittedValue(radios: seq<Radio>): (r: Option<int>)
    ensures r.None? <==> forall k :: 0 <= k < |radios| ==> !radios[k].checked
    ensures forall k :: 0 <= k < |radios| && radios[k].checked
                        && (forall m :: k < m < |radios| ==> !radios[m].checked)
                        ==> r == Some(radios[k].value)
  {
    FoldNoneIffUnchecked(radios);
    FoldChecked(None, radios)
  }

  /** Folding from `null` stays `null` exactly when no button is checked. */
  lemma FoldNoneIffUnchecked(radios: seq<Radio>)
    ensures FoldChecked(None, radios).None? <==> forall k :: 0 <= k < |radios| ==> !radios[k].checked
  {
    if exists k :: 0 <= k < |radios| && radios[k].checked {
      LastCheckedExists(radios);
      var j :| 0 <= j < |radios| && radios[j].checked
               && forall m :: j < m < |radios| ==> !radios[m].checked;
      assert FoldChecked(None, radios) == Some(radios[j].value);
    }
  }

  /** When some button is checked, one of them is the last checked one. */
  lemma {:induction false} LastCheckedExists(radios: seq<Radio>)
    ensures (exists k :: 0 <= k < |radios| && radios[k].checked) ==>
            exists k :: 0 <= k < |radios| && radios[k].checked
                        && forall m :: k < m < |radios| ==> !radios[m].checked
    decreases |radios|
  {
    if exists k :: 0 <= k < |radios| && radios[k].checked {
      var n := |radios| - 1;
      if !radios[n].checked {
        LastCheckedExists(radios[..n]);
        var k :| 0 <= k < |radios| && radios[k].checked;
        assert radios[..n][k] == radios[k];
        var j :| 0 <= j < n && radios[..n][j].checked
                 && forall m :: j < m < n ==> !radios[..n][m].checked;
        assert radios[j].checked;
        assert forall m :: j < m < |radios| ==> !radios[m].checked by {
          forall m | j < m < |radios|
            ensures !radios[m].checked
          {
            if m < n {
              assert !radios[..n][m].checked;
            }
          }
        }
      }
    }
  }

  /** The answer the page gives for one item. */
  function AnswerFor(page: Page): Item -> Answer {
    (item: Item) => Answer(item.id, SubmittedValue(Group(page, item.id)))
  }

  /** The results array: one `{id, value}` per item, in the current order of the item array. */
  function CollectResults(items: seq<Item>, page: Page): (rs: seq<Answer>)
    ensures |rs| == |items|
    ensures AnswerIds(rs) == Ids(items)
    ensures forall k :: 0 <= k < |items| ==> rs[k].value == SubmittedValue(Group(page, items[k].id))
  {
    Map(AnswerFor(page), items)
  }

  /** A page whose every radio button submits a value of the Likert scale. */
  predicate LikertPage(page: Page) {
    forall id, k :: id in page && 0 <= k < |page[id]| ==> IsLikertValue(page[id][k].value)
  }

  /** On a Likert page every submitted value lies in `[1, 5]`. */
  lemma CollectedValuesInScale(items: seq<Item>, page: Page)
    requires LikertPage(page)
    ensures forall k :: 0 <= k < |items| && CollectResults(items, page)[k].value.Some? ==>
              1 <= CollectResults(items, page)[k].value.value <= 5
  {
    var rs := CollectResults(items, page);
    forall k | 0 <= k < |items| && rs[k].value.Some?
      ensures 1 <= rs[k].value.value <= 5
    {
      var g := Group(page, items[k].id);
      var j :| 0 <= j < |g| && g[j].checked && forall m :: j < m < |g| ==> !g[m].checked by {
        LastCheckedExists(g);
      }
      LikertValues(g[j].value);
    }
  }
}
