/** Small table helpers shared by the models: an optional value and the
    first-match lookup that stands for `query.filter_by(...).first()`,
    `get_or_404` and `dict.get` over an in-memory table. */
module Tables {

  datatype Option<+T> = None | Some(value: T)

  /** The index of the first row satisfying `p`, if any. */
  function IndexOf<T>(rows: seq<T>, p: T -> bool): (r: Option<nat>)
    ensures r.Some? ==> r.value < |rows| && p(rows[r.value])
    ensures r.Some? ==> forall k :: 0 <= k < r.value ==> !p(rows[k])
    ensures r.None? <==> forall k :: 0 <= k < |rows| ==> !p(rows[k])
  {
    if rows == [] then None
    else if p(rows[0]) then Some(0)
    else match IndexOf(rows[1..], p)
      case None => None
      case Some(i) => Some(i + 1)
  }
}
