/** Option and Result, the failure-carrying datatypes the rest of the model returns. */
module Wrappers {

  datatype Option<+T> = None | Some(value: T)

  datatype Result<+T, +E> = Success(value: T) | Failure(error: E)
}

/** Searching and indexing sequences the way the Python code does. */
module Seqs {
  import opened Wrappers

  /** The position of the first occurrence of x in s (Python's str.find / list.index). */
  function IndexOf<T(==)>(s: seq<T>, x: T): (r: Option<nat>)
    ensures r.None? <==> x !in s
    ensures r.Some? ==> r.value < |s| && s[r.value] == x
    ensures r.Some? ==> forall i :: 0 <= i < r.value ==> s[i] != x
  {
    if s == [] then None
    else if s[0] == x then Some(0)
    else match IndexOf(s[1..], x)
      case None => None
      case Some(k) => Some(k + 1)
  }

  /** The position of the last occurrence of x in s (Python's str.rfind). */
  function LastIndexOf<T(==)>(s: seq<T>, x: T): (r: Option<nat>)
    ensures r.None? <==> x !in s
    ensures r.Some? ==> r.value < |s| && s[r.value] == x
    ensures r.Some? ==> forall i :: r.value < i < |s| ==> s[i] != x
  {
    if s == [] then None
    else if s[|s| - 1] == x then Some(|s| - 1)
    else LastIndexOf(s[..|s| - 1], x)
  }

  /** The first occurrence is determined by the position of x and the absence of x before it. */
  lemma IndexOfIs<T>(s: seq<T>, x: T, k: nat)
    requires k < |s| && s[k] == x
    requires forall i :: 0 <= i < k ==> s[i] != x
    ensures IndexOf(s, x) == Some(k)
  {
    assert s[k] in s;
  }

  /** Likewise for the last occurrence. */
  lemma LastIndexOfIs<T>(s: seq<T>, x: T, k: nat)
    requires k < |s| && s[k] == x
    requires forall i :: k < i < |s| ==> s[i] != x
    ensures LastIndexOf(s, x) == Some(k)
  {
    assert s[k] in s;
  }

  /** Appending something leaves the first occurrence of an element already present where it was. */
  lemma IndexOfAppend<T>(s: seq<T>, y: T, x: T)
    ensures x in s ==> IndexOf(s + [y], x) == IndexOf(s, x)
    ensures x !in s ==> IndexOf(s + [x], x) == Some(|s|)
  {
    var t := s + [y];
    if x in s {
      var k := IndexOf(s, x).value;
      assert t[k] == s[k];
      IndexOfIs(t, x, k);
    } else {
      IndexOfIs(s + [x], x, |s|);
    }
  }

  /**
   * Python list indexing: xs[i] for 0 <= i < len(xs) counts from the front, xs[i] for
   * -len(xs) <= i < 0 counts from the back, and any other i raises IndexError (None here).
   */
  function PyIndex<T>(xs: seq<T>, i: int): (r: Option<T>)
    ensures r.Some? <==> -|xs| <= i < |xs|
    ensures 0 <= i < |xs| ==> r == Some(xs[i])
    ensures -|xs| <= i < 0 ==> r == Some(xs[|xs| + i])
    ensures r.Some? ==> r.value in xs
  {
    if 0 <= i < |xs| then Some(xs[i])
    else if -|xs| <= i < 0 then Some(xs[|xs| + i])
    else None
  }
}
