/** The Python values that `clean_floats` walks: the decoded body of a judge API reply. */
module JsonValue {

  /** A Python float, kept abstract: only whether it is finite matters here. */
  datatype FloatValue = Finite(value: real) | NaN | PosInf | NegInf {
    /** `math.isfinite` */
    predicate IsFinite() { Finite? }
  }

  /** A Python value as `clean_floats` sees it. `Dict` keeps insertion order, as Python
      dicts do; `Tuple` stands for every container the sanitiser does not look into. */
  datatype Json =
    | Null
    | Bool(b: bool)
    | Int(i: int)
    | Float(f: FloatValue)
    | Str(s: string)
    | Tuple(items: seq<Json>)
    | List(elems: seq<Json>)
    | Dict(entries: seq<(string, Json)>)

  /** The keys of a dict, in order. */
  function Keys(entries: seq<(string, Json)>): (ks: seq<string>)
    ensures |ks| == |entries|
  {
    seq(|entries|, i requires 0 <= i < |entries| => entries[i].0)
  }

  /** No NaN or infinity is reachable from `j` through dicts and lists, the containers
      the sanitiser enters. Tuple contents are not visited, so a tuple holding a NaN
      counts as sanitised here even though the strict JSON encoder would reject it. */
  predicate Sanitised(j: Json)
  {
    match j
    case Float(f) => f.IsFinite()
    case List(elems) => forall k :: 0 <= k < |elems| ==> Sanitised(elems[k])
    case Dict(entries) => forall k :: 0 <= k < |entries| ==> Sanitised(entries[k].1)
    case _ => true
  }
}
