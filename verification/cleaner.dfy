/** `clean_floats` from the shared utility module: replaces every non-finite float
    reachable through dicts and lists by `None`. */
module Cleaner {
  import opened JsonValue

  function CleanFloats(j: Json): (r: Json)
    // Whatever comes in, nothing non-finite is left reachable.
    ensures Sanitised(r)
    // Floats: finite ones are kept, the others become None.
    ensures j.Float? && j.f.IsFinite() ==> r == j
    ensures j.Float? && !j.f.IsFinite() ==> r == Null
    // Containers are rebuilt with the same shape.
    ensures j.List? ==> r.List? && |r.elems| == |j.elems|
    ensures j.Dict? ==> r.Dict? && Keys(r.entries) == Keys(j.entries)
    // Everything else, tuples included, passes through.
    ensures !j.Float? && !j.List? && !j.Dict? ==> r == j
  {
    match j
    case Float(f) =>
      if f.IsFinite() then j else Null
    case Dict(entries) =>
      Dict(seq(|entries|, k requires 0 <= k < |entries| =>
        (entries[k].0, CleanFloats(entries[k].1))))
    case List(elems) =>
      List(seq(|elems|, k requires 0 <= k < |elems| => CleanFloats(elems[k])))
    case _ => j
  }

  /** A list is cleaned element by element, in order. */
  lemma CleanFloatsListElement(elems: seq<Json>, k: nat)
    requires k < |elems|
    ensures CleanFloats(List(elems)).elems[k] == CleanFloats(elems[k])
  {
  }

  /** A dict value is cleaned under its own key. */
  lemma CleanFloatsDictEntry(entries: seq<(string, Json)>, k: nat)
    requires k < |entries|
    ensures CleanFloats(Dict(entries)).entries[k] == (entries[k].0, CleanFloats(entries[k].1))
  {
  }

  /** The values `clean_floats` leaves alone are exactly the sanitised ones. */
  lemma {:induction false} CleanFloatsFixpoint(j: Json)
    ensures CleanFloats(j) == j <==> Sanitised(j)
  {
    if Sanitised(j) {
      match j
      case List(elems) =>
        forall k | 0 <= k < |elems|
          ensures CleanFloats(elems[k]) == elems[k]
        {
          CleanFloatsFixpoint(elems[k]);
        }
        assert CleanFloats(j).elems == elems;
      case Dict(entries) =>
        forall k | 0 <= k < |entries|
          ensures CleanFloats(entries[k].1) == entries[k].1
        {
          assert entries[k] in entries;
          CleanFloatsFixpoint(entries[k].1);
        }
        assert CleanFloats(j).entries == entries;
      case _ =>
    }
  }

  /** Cleaning an already-cleaned value changes nothing. */
  lemma CleanFloatsIdempotent(j: Json)
    ensures CleanFloats(CleanFloats(j)) == CleanFloats(j)
  {
    CleanFloatsFixpoint(CleanFloats(j));
  }
}
