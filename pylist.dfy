/**
 * The two Python list operations the store relies on. Both compare
 * elements with `==` (value equality on the record dicts) and raise
 * ValueError when no element matches; `None` stands for that error.
 */
module PyList {
  import opened Wrappers

  /** `s.index(x)`: the position of the FIRST element equal to `x`. */
  function IndexOf<T(==)>(s: seq<T>, x: T): (r: Option<nat>)
    ensures r.None? <==> x !in s
    ensures r.Some? ==> r.value < |s| && s[r.value] == x
    ensures r.Some? ==> forall j :: 0 <= j < r.value ==> s[j] != x
  {
    if s == [] then None
    else if s[0] == x then Some(0)
    else
      match IndexOf(s[1..], x)
      case None => None
      case Some(k) => Some(k + 1)
  }

  /**
   * `s.remove(x)`: drops the first element equal to `x`. The elements
   * before it stay in place and those after it move down one position.
   */
  function Remove<T(==)>(s: seq<T>, x: T): (r: Option<seq<T>>)
    ensures r.None? <==> x !in s
    ensures r.Some? ==> |r.value| == |s| - 1
    ensures r.Some? ==>
      var i := IndexOf(s, x).value;
      r.value[..i] == s[..i] && r.value[i..] == s[i + 1..]
    ensures r.Some? ==> multiset(r.value) + multiset{x} == multiset(s)
  {
    if s == [] then None
    else if s[0] == x then
      assert s == [x] + s[1..];
      Some(s[1..])
    else
      match Remove(s[1..], x)
      case None => None
      case Some(t) =>
        RemoveStep(s, x, t, IndexOf(s[1..], x).value);
        assert s == [s[0]] + s[1..];
        Some([s[0]] + t)
  }

  /** The recursive case of Remove: an unequal head is kept in front of the rest's removal. */
  lemma {:induction false} RemoveStep<T>(s: seq<T>, x: T, t: seq<T>, k: nat)
    requires s != [] && s[0] != x && x in s[1..]
    requires |t| == |s| - 2
    requires k == IndexOf(s[1..], x).value
    requires t[..k] == s[1..][..k] && t[k..] == s[1..][k + 1..]
    ensures IndexOf(s, x) == Some(k + 1)
    ensures ([s[0]] + t)[..k + 1] == s[..k + 1] && ([s[0]] + t)[k + 1..] == s[k + 2..]
  {
    var r := [s[0]] + t;
    assert r[..k + 1] == [s[0]] + t[..k];
    assert s[..k + 1] == [s[0]] + s[1..][..k];
    assert r[k + 1..] == t[k..];
    assert s[k + 2..] == s[1..][k + 1..];
  }

  /** Removing a value that was just appended, and occurs nowhere else, restores the list. */
  lemma {:induction false} RemoveAppended<T>(s: seq<T>, x: T)
    requires x !in s
    ensures Remove(s + [x], x) == Some(s)
  {
    var r := Remove(s + [x], x).value;
    assert IndexOf(s + [x], x) == Some(|s|) by {
      assert (s + [x])[..|s|] == s;
    }
    assert r == r[..|s|];
  }

  /** Every element left by a removal was in the list before. */
  lemma {:induction false} RemoveKeeps<T>(s: seq<T>, x: T, j: nat)
    requires x in s && j < |s| - 1
    ensures Remove(s, x).value[j] in s
  {
    var r := Remove(s, x).value;
    var i := IndexOf(s, x).value;
    if j < i {
      assert r[j] == r[..i][j];
    } else {
      assert r[j] == r[i..][j - i] == s[i + 1..][j - i];
    }
  }
}
