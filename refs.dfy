/**
  The editor holds its selection and the element being edited as object
  references. A reference either is null, names the element at an index of the
  live element list, or names an element object that is no longer in that list
  (it was spliced out, or the list was replaced by undo or clear). Splicing the
  list shifts the indices of the elements after the cut; the functions here
  keep every reference on the same object.
*/
module Refs {
  import opened Wrappers
  import opened Elements

  datatype Ref = Null | At(index: nat) | Detached(element: Element)

  predicate RefOk(r: Ref, elements: seq<Element>) {
    r.At? ==> r.index < |elements|
  }

  /** The element object a reference names, if any. */
  function Deref(r: Ref, elements: seq<Element>): (e: Option<Element>)
    requires RefOk(r, elements)
    ensures e.None? <==> r.Null?
  {
    match r
    case Null => None
    case At(i) => Some(elements[i])
    case Detached(e) => Some(e)
  }

  /** `elements.indexOf(element)`: the index, or -1 for an object not in the list. */
  function IndexOf(r: Ref): (i: int)
    ensures i >= 0 <==> r.At?
    ensures r.At? ==> i == r.index
  {
    if r.At? then r.index else -1
  }

  /** `elements.splice(k, 1)`. */
  function RemoveAt(elements: seq<Element>, k: nat): (r: seq<Element>)
    requires k < |elements|
    ensures |r| == |elements| - 1
    ensures forall i :: 0 <= i < k ==> r[i] == elements[i]
    ensures forall i :: k <= i < |r| ==> r[i] == elements[i + 1]
    ensures AllUpright(elements) ==> AllUpright(r)
  {
    elements[..k] + elements[k + 1..]
  }

  /** The same object after the element at `k` is spliced out. */
  function AfterRemoval(r: Ref, elements: seq<Element>, k: nat): (r': Ref)
    requires k < |elements| && RefOk(r, elements)
    ensures RefOk(r', RemoveAt(elements, k))
    ensures Deref(r', RemoveAt(elements, k)) == Deref(r, elements)
    ensures r'.At? <==> r.At? && r.index != k
    ensures r.At? && r.index < k ==> r' == r
    ensures r.At? && r.index > k ==> r' == At(r.index - 1)
    ensures r.At? && r.index == k ==> r' == Detached(elements[k])
  {
    match r
    case At(i) => if i < k then r else if i == k then Detached(elements[k]) else At(i - 1)
    case _ => r
  }

  /** The same object after the list is replaced wholesale. */
  function Detach(r: Ref, elements: seq<Element>): (r': Ref)
    requires RefOk(r, elements)
    ensures !r'.At?
    ensures Deref(r', []) == Deref(r, elements)
  {
    match r
    case At(i) => Detached(elements[i])
    case _ => r
  }

  /**
    Writing `e` through the reference: into the list for an element in it,
    into the detached object otherwise; the list stays the same length and
    the reference keeps naming the updated object.
  */
  function Store(r: Ref, elements: seq<Element>, e: Element): (res: (Ref, seq<Element>))
    requires RefOk(r, elements) && !r.Null?
    ensures |res.1| == |elements| && RefOk(res.0, res.1)
    ensures Deref(res.0, res.1) == Some(e)
    ensures forall i :: 0 <= i < |elements| && !(r.At? && r.index == i) ==> res.1[i] == elements[i]
    ensures res.0.At? <==> r.At?
    ensures r.At? ==> res.0 == r
    ensures !r.At? ==> res.1 == elements
    ensures AllUpright(elements) && (r.At? ==> Upright(e)) ==> AllUpright(res.1)
  {
    match r
    case At(i) => (r, elements[i := e])
    case _ => (Detached(e), elements)
  }
}
