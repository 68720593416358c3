/**
 * The two list primitives the database facade relies on: membership
 * (`x in xs`) is Dafny's own `in` on sequences, `xs.append(x)` is `xs + [x]`,
 * and `xs.remove(x)` is Remove below: it deletes the FIRST element equal to
 * `x` and raises ValueError when there is none.
 */
module ListOps {
  import opened Wrappers

  /** The exception `list.remove` raises when the value is not in the list. */
  datatype ListError = ValueError

  /** Position of the first element equal to `x`. */
  function IndexOf<T(==)>(s: seq<T>, x: T): (i: nat)
    requires x in s
    ensures i < |s| && s[i] == x
    ensures x !in s[..i]
  {
    if s[0] == x then 0
    else
      var j := IndexOf(s[1..], x);
      assert s[..j + 1] == [s[0]] + s[1..][..j];
      1 + j
  }

  /** `s` without its element at position `i`. */
  function DeleteAt<T>(s: seq<T>, i: nat): (r: seq<T>)
    requires i < |s|
    ensures |r| == |s| - 1
    ensures forall k :: 0 <= k < i ==> r[k] == s[k]
    ensures forall k :: i <= k < |r| ==> r[k] == s[k + 1]
  {
    s[..i] + s[i + 1..]
  }

  /** Python's `list.remove(x)`, returning the new list instead of mutating. */
  function Remove<T(==)>(s: seq<T>, x: T): (r: Result<seq<T>, ListError>)
    ensures r.Err? <==> x !in s
    ensures r.Ok? ==> multiset(r.value) + multiset{x} == multiset(s)
  {
    if x in s then
      var i := IndexOf(s, x);
      assert s == s[..i] + [s[i]] + s[i + 1..];
      Ok(DeleteAt(s, i))
    else
      Err(ValueError)
  }

  /** Remove deletes exactly the first occurrence: every list holding `x`
      splits as `a + [x] + b` with `x` not in `a`, and Remove yields `a + b`. */
  lemma RemoveFirstOccurrence<T>(a: seq<T>, x: T, b: seq<T>)
    requires x !in a
    ensures Remove(a + [x] + b, x) == Ok(a + b)
  {
    var s := a + [x] + b;
    var i := IndexOf(s, x);
    assert forall k :: 0 <= k < |a| ==> s[k] == a[k];
    assert s[|a|] == x;
    assert s[..i] == a;
    assert s[i + 1..] == b;
  }

  /** Every list holding `x` splits at its first `x` as `a + [x] + b`,
      and Remove yields `a + b`: one copy goes, the rest keeps its order. */
  lemma RemoveSplits<T>(s: seq<T>, x: T)
    requires x in s
    ensures exists a, b :: s == a + [x] + b && x !in a && Remove(s, x) == Ok(a + b)
  {
    var i := IndexOf(s, x);
    var a, b := s[..i], s[i + 1..];
    assert s == a + [x] + b;
    RemoveFirstOccurrence(a, x, b);
  }

  /** Appending a value the list did not hold and removing it again gives
      back the original list. */
  lemma RemoveAfterAppend<T>(s: seq<T>, x: T)
    requires x !in s
    ensures Remove(s + [x], x) == Ok(s)
  {
    assert s + [x] + [] == s + [x];
    RemoveFirstOccurrence(s, x, []);
    assert s + [] == s;
  }

  /** When the list already held `x`, removing after an append takes out the
      EARLIER copy, so the list ends with `x` rather than equalling `s`. */
  lemma RemoveAfterAppendDuplicate<T>(s: seq<T>, x: T)
    requires x in s
    ensures Remove(s + [x], x).Ok?
    ensures Remove(s + [x], x).value == DeleteAt(s, IndexOf(s, x)) + [x]
  {
    var i := IndexOf(s, x);
    var a, b := s[..i], s[i + 1..];
    assert s == a + [x] + b;
    assert s + [x] == a + [x] + (b + [x]);
    RemoveFirstOccurrence(a, x, b + [x]);
    assert DeleteAt(s, i) == a + b;
  }
}
