/** A stored mistake as the backend's list endpoints return it, seen from JavaScript:
    every property may be missing. The views read both `passedtestcount` and
    `passedTestCount`, so both are kept. */
module MistakeItems {
  import opened Wrappers
  import Badges

  /** A numeric property that may be absent (`undefined`) or JSON `null`; the two
      differ once compared: `null` converts to 0, `undefined` to NaN. */
  datatype Loose = Undefined | Null | Number(n: int)

  function ToNumber(v: Loose): (x: Badges.JsNumber)
    ensures x.NaN? <==> v.Undefined?
    ensures v.Null? ==> x == Badges.Num(0)
    ensures v.Number? ==> x == Badges.Num(v.n)
  {
    match v
    case Undefined => Badges.NaN
    case Null => Badges.Num(0)
    case Number(n) => Badges.Num(n)
  }

  /** JavaScript truthiness of a number property: present and non-zero. */
  predicate Truthy(v: Loose)
  {
    v.Number? && v.n != 0
  }

  datatype Item = Item(
    id: Option<int>,
    handle: Option<string>,
    problemName: Option<string>,
    problemIndex: Option<string>,
    difficulty: Loose,
    verdict: Option<string>,
    message: Option<string>,
    passedtestcount: Option<int>,
    passedTestCount: Option<int>,
    tags: Option<seq<string>>)

  /** `item.id || idx`: a missing or zero id is replaced by the position in the reply. */
  function RowId(id: Option<int>, idx: nat): (r: int)
    ensures id.Some? && id.value != 0 ==> r == id.value
    ensures id.None? || id.value == 0 ==> r == idx
  {
    if id.Some? && id.value != 0 then id.value else idx
  }

  /** In a reply that mixes ids with items lacking one, keys can repeat: an item with
      id 1 at position 0 and an item without an id at position 1 both get the key 1. */
  lemma RowIdsCollideInMixedReply()
    ensures RowId(Some(1), 0) == RowId(None, 1) == 1
  {
  }

  /** With no usable ids in the reply, the row keys are the positions, all distinct. */
  lemma RowIdsDistinctWithoutIds(items: seq<Item>)
    requires forall k :: 0 <= k < |items| ==> items[k].id.None? || items[k].id == Some(0)
    ensures forall i, j :: 0 <= i < j < |items| ==> RowId(items[i].id, i) != RowId(items[j].id, j)
  {
  }
}
