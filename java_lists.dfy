/** The java.util.List and Stream operations the store relies on:
    filter(...).findFirst(), which returns the first element passing a test,
    and List.remove(Object), which removes the first element equal to its
    argument. */
module JavaLists {
  import opened Wrappers

  /** The position of the first element passing p, if any. */
  function IndexOfFirst<T>(s: seq<T>, p: T -> bool): (r: Option<nat>)
    ensures r.Some? ==> r.value < |s| && p(s[r.value]) && forall j :: 0 <= j < r.value ==> !p(s[j])
    ensures r.None? ==> forall j :: 0 <= j < |s| ==> !p(s[j])
  {
    if s == [] then None
    else if p(s[0]) then Some(0)
    else match IndexOfFirst(s[1..], p)
      case None => None
      case Some(k) => Some(k + 1)
  }

  /** stream().filter(p).findFirst(). */
  function FindFirst<T>(s: seq<T>, p: T -> bool): Option<T> {
    match IndexOfFirst(s, p)
    case None => None
    case Some(i) => Some(s[i])
  }

  /** List.remove(Object): drops the first element equal to x, if there is one. */
  function RemoveFirst<T(==)>(s: seq<T>, x: T): seq<T> {
    if s == [] then []
    else if s[0] == x then s[1..]
    else [s[0]] + RemoveFirst(s[1..], x)
  }

  /** The list without position i. */
  function RemoveAt<T>(s: seq<T>, i: nat): (r: seq<T>)
    requires i < |s|
    ensures |r| == |s| - 1
  {
    s[..i] + s[i + 1..]
  }

  /** remove(Object) without an occurrence changes nothing. */
  lemma {:induction false} RemoveFirstAbsent<T>(s: seq<T>, x: T)
    requires x !in s
    ensures RemoveFirst(s, x) == s
  {
    if s != [] {
      RemoveFirstAbsent(s[1..], x);
    }
  }

  /** remove(Object) drops the first occurrence of x and leaves every other
      element in order. */
  lemma {:induction false} RemoveFirstAt<T>(s: seq<T>, x: T, i: nat)
    requires i < |s| && s[i] == x && x !in s[..i]
    ensures RemoveFirst(s, x) == RemoveAt(s, i)
  {
    if i > 0 {
      assert s[0] in s[..i];
      assert s[1..][..i - 1] == s[..i][1..];
      RemoveFirstAt(s[1..], x, i - 1);
      assert RemoveAt(s, i) == [s[0]] + RemoveAt(s[1..], i - 1);
    }
  }

  /** Removing, by equality, the element findFirst found removes exactly
      that position: no earlier element can be equal to it, since it would
      have passed the same test. */
  lemma RemoveFirstOfFound<T>(s: seq<T>, p: T -> bool)
    requires IndexOfFirst(s, p).Some?
    ensures var i := IndexOfFirst(s, p).value; RemoveFirst(s, s[i]) == RemoveAt(s, i)
  {
    var i := IndexOfFirst(s, p).value;
    forall j | 0 <= j < i ensures s[..i][j] != s[i] {
      assert !p(s[j]);
    }
    RemoveFirstAt(s, s[i], i);
  }
}
