/** The one query shape the core uses against its tables:
    `query(Table).filter(condition).first()`. */
module Query {
  import opened Wrappers

  /** The position of the first row satisfying `p`, or None when no row does. */
  function First<T>(rows: seq<T>, p: T -> bool): (r: Option<nat>)
    ensures r.Some? ==> r.value < |rows| && p(rows[r.value])
    ensures r.Some? ==> forall j :: 0 <= j < r.value ==> !p(rows[j])
    ensures r.None? <==> forall j :: 0 <= j < |rows| ==> !p(rows[j])
  {
    if rows == [] then None
    else if p(rows[0]) then Some(0)
    else
      match First(rows[1..], p)
      case None => None
      case Some(k) => Some(k + 1)
  }

  /** Rows appended after the existing ones do not change which existing row
      is found first. */
  lemma {:induction false} FirstOfExtended<T>(rows: seq<T>, more: seq<T>, p: T -> bool)
    requires First(rows, p).Some?
    ensures First(rows + more, p) == First(rows, p)
  {
    if !p(rows[0]) {
      assert (rows + more)[1..] == rows[1..] + more;
      FirstOfExtended(rows[1..], more, p);
    }
  }
}
