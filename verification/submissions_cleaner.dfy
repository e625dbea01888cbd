/** The second copy of `clean_floats`, private to the submissions endpoint, and the
    proof that it behaves exactly like the shared one. */
module SubmissionsCleaner {
  import opened JsonValue
  import Cleaner

  /** Written as the endpoint writes it: a conditional expression for floats and a
      fall-through return for everything that is neither float, dict nor list. */
  function CleanFloats(j: Json): (r: Json)
    ensures Sanitised(r)
    ensures j.List? ==> r.List? && |r.elems| == |j.elems|
    ensures j.Dict? ==> r.Dict? && Keys(r.entries) == Keys(j.entries)
  {
    if j.Float? then
      (if j.f.IsFinite() then j else Null)
    else if j.Dict? then
      Dict(seq(|j.entries|, k requires 0 <= k < |j.entries| =>
        (j.entries[k].0, CleanFloats(j.entries[k].1))))
    else if j.List? then
      List(seq(|j.elems|, k requires 0 <= k < |j.elems| => CleanFloats(j.elems[k])))
    else
      j
  }

  /** The two copies agree on every input. */
  lemma {:induction false} CopiesAgree(j: Json)
    ensures CleanFloats(j) == Cleaner.CleanFloats(j)
  {
    match j
    case List(elems) =>
      forall k | 0 <= k < |elems|
        ensures CleanFloats(elems[k]) == Cleaner.CleanFloats(elems[k])
      {
        CopiesAgree(elems[k]);
      }
      assert CleanFloats(j).elems == Cleaner.CleanFloats(j).elems;
    case Dict(entries) =>
      forall k | 0 <= k < |entries|
        ensures CleanFloats(entries[k].1) == Cleaner.CleanFloats(entries[k].1)
      {
        assert entries[k] in entries;
        CopiesAgree(entries[k].1);
      }
      assert CleanFloats(j).entries == Cleaner.CleanFloats(j).entries;
    case _ =>
  }

  /** Hence the endpoint's copy inherits every property of the shared one: it is
      idempotent, and it leaves a value alone exactly when the value is sanitised. */
  lemma SubmissionsCleanFloatsFixpoint(j: Json)
    ensures CleanFloats(CleanFloats(j)) == CleanFloats(j)
    ensures CleanFloats(j) == j <==> Sanitised(j)
  {
    CopiesAgree(j);
    CopiesAgree(CleanFloats(j));
    Cleaner.CleanFloatsFixpoint(j);
    Cleaner.CleanFloatsIdempotent(j);
  }
}
