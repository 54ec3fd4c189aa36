/** `Array.prototype.filter`, which both the file list and the sidebar's open-category list use. */
module Lists {

  /** The elements of `s` that `keep` accepts, in their original order. */
  function Filter<T>(s: seq<T>, keep: T -> bool): (r: seq<T>)
    ensures |r| <= |s|
    ensures forall i :: 0 <= i < |r| ==> r[i] in s && keep(r[i])
    ensures forall i :: 0 <= i < |s| && keep(s[i]) ==> s[i] in r
    ensures (forall i :: 0 <= i < |s| ==> keep(s[i])) ==> r == s
    decreases |s|
  {
    if s == [] then []
    else (if keep(s[0]) then [s[0]] else []) + Filter(s[1..], keep)
  }

  /** Filtering a concatenation filters each part and keeps them in order. */
  lemma {:induction false} FilterAppend<T>(a: seq<T>, b: seq<T>, keep: T -> bool)
    ensures Filter(a + b, keep) == Filter(a, keep) + Filter(b, keep)
    decreases |a|
  {
    if a == [] {
      assert a + b == b;
    } else {
      assert (a + b)[1..] == a[1..] + b;
      FilterAppend(a[1..], b, keep);
    }
  }

  /** Filtering keeps an element in its place between what comes before and after it. */
  lemma FilterAround<T>(before: seq<T>, x: T, after: seq<T>, keep: T -> bool)
    ensures Filter(before + [x] + after, keep) == Filter(before, keep) + (if keep(x) then [x] else []) + Filter(after, keep)
  {
    var kept: seq<T> := if keep(x) then [x] else [];
    assert [x][1..] == [];
    assert Filter([x], keep) == kept + [];
    AppendNil(kept);
    FilterAppend(before, [x], keep);
    FilterAppend(before + [x], after, keep);
  }

  /** A sequence is what comes before position `i`, the element there, and what comes after. */
  lemma SplitAt<T>(s: seq<T>, i: nat)
    requires i < |s|
    ensures s == s[..i] + [s[i]] + s[i + 1..]
  {
  }

  /** The empty sequence is neutral on the right of a concatenation. */
  lemma AppendNil<T>(s: seq<T>)
    ensures s + [] == s
  {
  }

  /** The empty sequence is neutral on the left of a concatenation. */
  lemma NilAppend<T>(s: seq<T>)
    ensures [] + s == s
  {
  }

  /** Concatenation is associative. */
  lemma AppendAssoc<T>(a: seq<T>, b: seq<T>, c: seq<T>)
    ensures (a + b) + c == a + (b + c)
  {
  }
}
