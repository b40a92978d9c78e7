/** Small helpers shared by every module of the model. */
module Common {

  /** The conventional Some/None datatype, standing for Python's `None`. */
  datatype Option<+T> = None | Some(value: T)

  /** The index of the first element of `s` that satisfies `p`: what a Python
      `for x in s: if p(x): return x` loop finds. */
  function FirstWhere<T>(s: seq<T>, p: T -> bool): (r: Option<nat>)
    ensures r.Some? ==> r.value < |s| && p(s[r.value])
    ensures r.Some? ==> forall j :: 0 <= j < r.value ==> !p(s[j])
    ensures r.None? ==> forall j :: 0 <= j < |s| ==> !p(s[j])
    decreases |s|
  {
    if s == [] then None
    else if p(s[0]) then Some(0)
    else match FirstWhere(s[1..], p)
      case None => None
      case Some(i) => Some(i + 1)
  }
}
