/** Pure display rules of the table cells. */
module Cells {
  import opened Wrappers
  import Decimal

  /** The tags column of the live view: at most three tag badges, then a `+n` badge
      counting the rest when there are more than three. */
  datatype TagBadges = TagBadges(shown: seq<string>, more: Option<nat>)

  const SHOWN_TAGS: nat := 3

  function TagBadgesOf(tags: seq<string>): (b: TagBadges)
    ensures b.shown <= tags && |b.shown| == if |tags| < SHOWN_TAGS then |tags| else SHOWN_TAGS
    ensures b.more.Some? <==> |tags| > SHOWN_TAGS
    ensures b.more.Some? ==> b.more.value == |tags| - SHOWN_TAGS
  {
    TagBadges(if |tags| <= SHOWN_TAGS then tags else tags[..SHOWN_TAGS],
              if |tags| > SHOWN_TAGS then Some(|tags| - SHOWN_TAGS) else None)
  }

  /** The badges account for every tag: the shown ones plus the count on the `+n`
      badge is the number of tags, and nothing is hidden without a badge saying so. */
  lemma TagBadgesAccountForAll(tags: seq<string>)
    ensures |TagBadgesOf(tags).shown| + TagBadgesOf(tags).more.GetOr(0) == |tags|
    ensures TagBadgesOf(tags).more.None? ==> TagBadgesOf(tags).shown == tags
  {
  }

  /** How React renders an optional number: its decimal text, or nothing. */
  function RenderNumber(n: Option<int>): string
  {
    match n
    case Some(v) => Decimal.IntToString(v)
    case None => ""
  }

  /** `{passedTestCount}/{testCount || '?'}`: a missing or zero total shows as `?`. */
  function TestsCell(passed: Option<int>, total: Option<int>): (cell: string)
    ensures |cell| > |RenderNumber(passed)| && cell[..|RenderNumber(passed)|] == RenderNumber(passed)
    ensures cell[|RenderNumber(passed)|] == '/'
    ensures cell[|RenderNumber(passed)| + 1..] == "?" <==> total.None? || total == Some(0)
    ensures total.Some? && total.value != 0 ==>
      cell[|RenderNumber(passed)| + 1..] == Decimal.IntToString(total.value)
  {
    var left := RenderNumber(passed);
    var right := if total.Some? && total.value != 0 then Decimal.IntToString(total.value) else "?";
    assert right == "?" ==> total.None? || total == Some(0) by {
      if total.Some? && total.value != 0 {
        assert Decimal.IsDigit(right[|right| - 1]) || right[0] == '-';
      }
    }
    assert (left + "/" + right)[|left| + 1..] == right;
    left + "/" + right
  }

  /** Reading the cell back with `parseInt` recovers the passed count. */
  lemma TestsCellParsesToPassed(passed: int, total: Option<int>)
    ensures Decimal.ParseInt(TestsCell(Some(passed), total)) == Some(passed)
  {
    var rest := "/" + (if total.Some? && total.value != 0 then Decimal.IntToString(total.value) else "?");
    assert TestsCell(Some(passed), total) == Decimal.IntToString(passed) + rest;
    Decimal.ParseIntOfRendered(passed, rest);
  }

  /** A difficulty shown as a badge when truthy, or a dash. */
  datatype DifficultyCell = Badge(rating: int) | Dash

  /** `rating ? <Badge>{rating}</Badge> : '-'`; zero is falsy and shows as a dash. */
  function DifficultyCellOf(rating: Option<int>): (c: DifficultyCell)
    ensures c.Badge? <==> rating.Some? && rating.value != 0
    ensures c.Badge? ==> c.rating == rating.value
  {
    match rating
    case Some(r) => if r != 0 then Badge(r) else Dash
    case None => Dash
  }
}
