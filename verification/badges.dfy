/** The colour coding of the tables: difficulty bands and verdict badges. */
module Badges {
  import opened Wrappers

  // ---------------------------------------------------------------------------
  // Numbers as JavaScript compares them
  // ---------------------------------------------------------------------------

  /** The outcome of JavaScript's numeric conversion of a compared value: a number,
      or NaN, which makes every `<` and `>=` false. */
  datatype JsNumber = NaN | Num(n: int)

  /** How many of the thresholds are at or below `x`: the rank of the band `x` falls in
      when the thresholds are the lower bounds of the bands above the first. */
  function CountAtMost(thresholds: seq<int>, x: int): (c: nat)
    ensures c <= |thresholds|
  {
    if |thresholds| == 0 then 0
    else (if thresholds[0] <= x then 1 else 0) + CountAtMost(thresholds[1..], x)
  }

  /** A larger value never falls in a lower band. */
  lemma {:induction false} CountAtMostMonotone(thresholds: seq<int>, x: int, y: int)
    requires x <= y
    ensures CountAtMost(thresholds, x) <= CountAtMost(thresholds, y)
  {
    if |thresholds| > 0 {
      CountAtMostMonotone(thresholds[1..], x, y);
    }
  }

  /** For ascending thresholds the count is `k` exactly on the k-th band
      `[thresholds[k-1], thresholds[k])`. */
  lemma {:induction false} CountAtMostBand(thresholds: seq<int>, x: int, k: nat)
    requires forall i, j :: 0 <= i < j < |thresholds| ==> thresholds[i] < thresholds[j]
    requires k <= |thresholds|
    ensures CountAtMost(thresholds, x) == k <==>
      (k == 0 || thresholds[k - 1] <= x) && (k == |thresholds| || x < thresholds[k])
  {
    if |thresholds| > 0 {
      var rest := thresholds[1..];
      if thresholds[0] <= x {
        if k > 0 {
          CountAtMostBand(rest, x, k - 1);
        } else {
          CountAtMostMonotone(rest, thresholds[0], x);
        }
      } else {
        CountAtMostBelow(thresholds, x);
      }
    }
  }

  /** Below the first of ascending thresholds the count is 0. */
  lemma {:induction false} CountAtMostBelow(thresholds: seq<int>, x: int)
    requires forall i, j :: 0 <= i < j < |thresholds| ==> thresholds[i] < thresholds[j]
    requires |thresholds| > 0 && x < thresholds[0]
    ensures CountAtMost(thresholds, x) == 0
    decreases |thresholds|
  {
    if |thresholds| > 1 {
      CountAtMostBelow(thresholds[1..], x);
    }
  }

  /** One step of the count, taken at position `k`. */
  lemma CountAtMostStep(thresholds: seq<int>, k: nat, x: int)
    requires k < |thresholds|
    ensures CountAtMost(thresholds[k..], x) ==
      (if thresholds[k] <= x then 1 else 0) + CountAtMost(thresholds[k + 1..], x)
  {
    assert thresholds[k..][1..] == thresholds[k + 1..];
  }

  // ---------------------------------------------------------------------------
  // Difficulty bands of the filtered, by-verdict tables (`getDifficultyColour`)
  // ---------------------------------------------------------------------------

  /** Lower bounds of the bands above grey. */
  const TABLE_THRESHOLDS: seq<int> := [1200, 1400, 1600, 1900, 2200, 2300, 2400]

  datatype TableBand =
    | Grey | Green | Cyan | DeepBlue | Magenta | LightYellow | DeepYellow | Red
    | Fallback

  function TableBandRank(b: TableBand): nat
  {
    match b
    case Grey => 0 case Green => 1 case Cyan => 2 case DeepBlue => 3
    case Magenta => 4 case LightYellow => 5 case DeepYellow => 6 case Red => 7
    case Fallback => 8
  }

  function TableBandClass(b: TableBand): string
  {
    match b
    case Grey => "bg-gray-500 text-white dark:bg-gray-600"
    case Green => "bg-green-500 text-white dark:bg-green-600"
    case Cyan => "bg-cyan-500 text-white dark:bg-cyan-600"
    case DeepBlue => "bg-blue-800 text-white dark:bg-blue-900"
    case Magenta => "bg-fuchsia-500 text-white dark:bg-fuchsia-600"
    case LightYellow => "bg-yellow-200 text-black dark:bg-yellow-300"
    case DeepYellow => "bg-yellow-600 text-black dark:bg-yellow-700"
    case Red => "bg-red-600 text-white dark:bg-red-700"
    case Fallback => "bg-slate-500 text-white dark:bg-slate-600"
  }

  /** The first-match chain of range tests, as written. */
  function DifficultyColour(d: JsNumber): (b: TableBand)
    ensures d.NaN? <==> b == Fallback
    ensures d.Num? ==> TableBandRank(b) == CountAtMost(TABLE_THRESHOLDS, d.n)
  {
    match d
    case NaN => Fallback
    case Num(x) =>
      TableThresholdsCount(x);
      if x < 1200 then Grey
      else if x >= 1200 && x < 1400 then Green
      else if x >= 1400 && x < 1600 then Cyan
      else if x >= 1600 && x < 1900 then DeepBlue
      else if x >= 1900 && x < 2200 then Magenta
      else if x >= 2200 && x < 2300 then LightYellow
      else if x >= 2300 && x < 2400 then DeepYellow
      else if x >= 2400 then Red
      else Fallback
  }

  lemma TableThresholdsCount(x: int)
    ensures CountAtMost(TABLE_THRESHOLDS, x) ==
      if x < 1200 then 0 else if x < 1400 then 1 else if x < 1600 then 2
      else if x < 1900 then 3 else if x < 2200 then 4 else if x < 2300 then 5
      else if x < 2400 then 6 else 7
  {
    var t := TABLE_THRESHOLDS;
    assert t[7..] == [];
    CountAtMostStep(t, 6, x);
    CountAtMostStep(t, 5, x);
    CountAtMostStep(t, 4, x);
    CountAtMostStep(t, 3, x);
    CountAtMostStep(t, 2, x);
    CountAtMostStep(t, 1, x);
    CountAtMostStep(t, 0, x);
    assert t[0..] == t;
  }

  /** The bands are ordered: a harder problem never gets a lower band. */
  lemma DifficultyColourMonotone(x: int, y: int)
    requires x <= y
    ensures TableBandRank(DifficultyColour(Num(x))) <= TableBandRank(DifficultyColour(Num(y)))
  {
    CountAtMostMonotone(TABLE_THRESHOLDS, x, y);
  }

  /** The eight bands partition the integers at the thresholds; in particular no integer
      reaches the fallback. */
  lemma DifficultyColourPartition(x: int, k: nat)
    requires k <= |TABLE_THRESHOLDS|
    ensures TableBandRank(DifficultyColour(Num(x))) == k <==>
      (k == 0 || TABLE_THRESHOLDS[k - 1] <= x) && (k == |TABLE_THRESHOLDS| || x < TABLE_THRESHOLDS[k])
  {
    CountAtMostBand(TABLE_THRESHOLDS, x, k);
  }

  // ---------------------------------------------------------------------------
  // Difficulty dots of the rating view (`getDifficultyColor`)
  // ---------------------------------------------------------------------------

  /** Lower bounds of the dots above grey; different from the tables' bands. */
  const RATING_THRESHOLDS: seq<int> := [1000, 1200, 1400, 1600, 1900, 2100, 2400]

  datatype RatingDot = GrayDot | GreenDot | CyanDot | BlueDot | PurpleDot | YellowDot | OrangeDot | RedDot

  function RatingDotRank(b: RatingDot): nat
  {
    match b
    case GrayDot => 0 case GreenDot => 1 case CyanDot => 2 case BlueDot => 3
    case PurpleDot => 4 case YellowDot => 5 case OrangeDot => 6 case RedDot => 7
  }

  function RatingDotClass(b: RatingDot): string
  {
    match b
    case GrayDot => "bg-gray-500" case GreenDot => "bg-green-500"
    case CyanDot => "bg-cyan-500" case BlueDot => "bg-blue-500"
    case PurpleDot => "bg-purple-500" case YellowDot => "bg-yellow-500"
    case OrangeDot => "bg-orange-500" case RedDot => "bg-red-500"
  }

  /** The first-match chain; a value that is not a number fails every test and lands
      on the final `return`, which is red. */
  function RatingDifficultyColor(d: JsNumber): (b: RatingDot)
    ensures d.NaN? ==> b == RedDot
    ensures d.Num? ==> RatingDotRank(b) == CountAtMost(RATING_THRESHOLDS, d.n)
  {
    match d
    case NaN => RedDot
    case Num(x) =>
      RatingThresholdsCount(x);
      if x < 1000 then GrayDot
      else if x < 1200 then GreenDot
      else if x < 1400 then CyanDot
      else if x < 1600 then BlueDot
      else if x < 1900 then PurpleDot
      else if x < 2100 then YellowDot
      else if x < 2400 then OrangeDot
      else RedDot
  }

  lemma RatingThresholdsCount(x: int)
    ensures CountAtMost(RATING_THRESHOLDS, x) ==
      if x < 1000 then 0 else if x < 1200 then 1 else if x < 1400 then 2
      else if x < 1600 then 3 else if x < 1900 then 4 else if x < 2100 then 5
      else if x < 2400 then 6 else 7
  {
    var t := RATING_THRESHOLDS;
    assert t[7..] == [];
    CountAtMostStep(t, 6, x);
    CountAtMostStep(t, 5, x);
    CountAtMostStep(t, 4, x);
    CountAtMostStep(t, 3, x);
    CountAtMostStep(t, 2, x);
    CountAtMostStep(t, 1, x);
    CountAtMostStep(t, 0, x);
    assert t[0..] == t;
  }

  lemma RatingDifficultyColorMonotone(x: int, y: int)
    requires x <= y
    ensures RatingDotRank(RatingDifficultyColor(Num(x))) <= RatingDotRank(RatingDifficultyColor(Num(y)))
  {
    CountAtMostMonotone(RATING_THRESHOLDS, x, y);
  }

  /** The eight dots partition the integers at the rating view's thresholds. */
  lemma RatingDifficultyColorPartition(x: int, k: nat)
    requires k <= |RATING_THRESHOLDS|
    ensures RatingDotRank(RatingDifficultyColor(Num(x))) == k <==>
      (k == 0 || RATING_THRESHOLDS[k - 1] <= x) && (k == |RATING_THRESHOLDS| || x < RATING_THRESHOLDS[k])
  {
    CountAtMostBand(RATING_THRESHOLDS, x, k);
  }

  // ---------------------------------------------------------------------------
  // Verdict badges
  // ---------------------------------------------------------------------------

  /** The verdicts the filter forms offer, in menu order. */
  const VERDICT_OPTIONS: seq<string> := [
    "WRONG_ANSWER", "TIME_LIMIT_EXCEEDED", "MEMORY_LIMIT_EXCEEDED",
    "RUNTIME_ERROR", "COMPILATION_ERROR", "IDLENESS_LIMIT_EXCEEDED"]

  datatype VerdictStyle = RedBadge | BlueBadge | YellowBadge | GrayBadge | GreenBadge | SlateBadge

  function VerdictStyleClass(s: VerdictStyle): string
  {
    match s
    case RedBadge => "bg-red-500 text-white dark:bg-red-600"
    case BlueBadge => "bg-blue-500 text-white dark:bg-blue-600"
    case YellowBadge => "bg-yellow-400 text-black dark:bg-yellow-500"
    case GrayBadge => "bg-gray-500 text-white dark:bg-gray-600"
    case GreenBadge => "bg-green-500 text-white dark:bg-green-600"
    case SlateBadge => "bg-slate-500 text-white dark:bg-slate-600"
  }

  /** The verdicts the tables colour specially, with their styles. */
  const TABLE_PALETTE: seq<(string, VerdictStyle)> := [
    ("WRONG_ANSWER", RedBadge), ("TIME_LIMIT_EXCEEDED", BlueBadge),
    ("COMPILATION_ERROR", YellowBadge), ("IDLENESS_LIMIT_EXCEEDED", GrayBadge),
    ("ACCEPTED", GreenBadge)]

  /** The style the palette lists first for `v`, if any. */
  function Lookup(palette: seq<(string, VerdictStyle)>, v: string): (r: Option<VerdictStyle>)
    ensures r.Some? ==> (v, r.value) in palette
    ensures r.None? ==> forall k :: 0 <= k < |palette| ==> palette[k].0 != v
  {
    if |palette| == 0 then None
    else if palette[0].0 == v then Some(palette[0].1)
    else Lookup(palette[1..], v)
  }

  /** The tables' `getVerdictColor` switch. */
  function TableVerdictStyle(v: string): (s: VerdictStyle)
    ensures s == Lookup(TABLE_PALETTE, v).GetOr(SlateBadge)
  {
    match v
    case "WRONG_ANSWER" => RedBadge
    case "TIME_LIMIT_EXCEEDED" => BlueBadge
    case "COMPILATION_ERROR" => YellowBadge
    case "IDLENESS_LIMIT_EXCEEDED" => GrayBadge
    case "ACCEPTED" => GreenBadge
    case _ => SlateBadge
  }

  /** Each verdict the palette lists gets the style listed with it. */
  lemma TableVerdictStyleOfPalette()
    ensures forall k :: 0 <= k < |TABLE_PALETTE| ==>
      TableVerdictStyle(TABLE_PALETTE[k].0) == TABLE_PALETTE[k].1
  {
    forall k | 0 <= k < |TABLE_PALETTE|
      ensures TableVerdictStyle(TABLE_PALETTE[k].0) == TABLE_PALETTE[k].1
    {
      assert k == 0 || k == 1 || k == 2 || k == 3 || k == 4;
    }
  }

  /** The five special verdicts get five different styles, none of them the default. */
  lemma TableVerdictStyleDistinct()
    ensures forall i, j :: 0 <= i < j < |TABLE_PALETTE| ==>
      TableVerdictStyle(TABLE_PALETTE[i].0) != TableVerdictStyle(TABLE_PALETTE[j].0)
    ensures forall k :: 0 <= k < |TABLE_PALETTE| ==> TableVerdictStyle(TABLE_PALETTE[k].0) != SlateBadge
  {
    TableVerdictStyleOfPalette();
  }

  /** The two selectable verdicts the switch omits get the default. */
  lemma TableVerdictStyleOmitted()
    ensures TableVerdictStyle("MEMORY_LIMIT_EXCEEDED") == SlateBadge
    ensures TableVerdictStyle("RUNTIME_ERROR") == SlateBadge
  {
  }

  /** The live view's badge variants. */
  datatype BadgeVariant = Destructive | Secondary

  const LIVE_DESTRUCTIVE: set<string> := {
    "WRONG_ANSWER", "TIME_LIMIT_EXCEEDED", "MEMORY_LIMIT_EXCEEDED",
    "RUNTIME_ERROR", "COMPILATION_ERROR"}

  /** The live view's `getVerdictColor` switch. */
  function LiveVerdictVariant(v: string): (b: BadgeVariant)
    ensures b == Destructive <==> v in LIVE_DESTRUCTIVE
  {
    match v
    case "WRONG_ANSWER" => Destructive
    case "TIME_LIMIT_EXCEEDED" => Destructive
    case "MEMORY_LIMIT_EXCEEDED" => Destructive
    case "RUNTIME_ERROR" => Destructive
    case "COMPILATION_ERROR" => Destructive
    case _ => Secondary
  }

  /** Of the selectable verdicts, the live view marks all but idleness as destructive. */
  lemma LiveVerdictVariantOfOptions()
    ensures forall k :: 0 <= k < |VERDICT_OPTIONS| ==>
      (LiveVerdictVariant(VERDICT_OPTIONS[k]) == Destructive <==> VERDICT_OPTIONS[k] != "IDLENESS_LIMIT_EXCEEDED")
  {
  }
}
