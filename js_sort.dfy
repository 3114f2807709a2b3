/**
 * `Array.prototype.sort()` called without a comparator on an array of strings:
 * it reorders the array in place into ascending order under JavaScript's
 * string comparison. The engine's algorithm is its own; what the listing code
 * relies on is the contract, and any array that meets it is the same array
 * (SortedUnique).
 */
module JsSort {
  import opened JsString

  /** Every element is `<=` the one after it. */
  predicate Sorted(s: seq<Str>) {
    forall i | 0 < i < |s| :: Below(s[i - 1], s[i])
  }

  /** Dropping the first element keeps a sequence sorted. */
  lemma SortedTail(s: seq<Str>)
    requires Sorted(s) && s != []
    ensures Sorted(s[1..])
  {
    forall i | 0 < i < |s[1..]| ensures Below(s[1..][i - 1], s[1..][i]) {
      assert s[1..][i - 1] == s[i] && s[1..][i] == s[i + 1];
    }
  }

  /** The first element of a sorted sequence is `<=` every element. */
  lemma {:induction false} SortedFirstIsLeast(s: seq<Str>, x: Str)
    requires Sorted(s) && x in s
    ensures Below(s[0], x)
    decreases |s|
  {
    if x == s[0] {
      BelowReflexive(x);
    } else {
      assert x in s[1..];
      SortedTail(s);
      SortedFirstIsLeast(s[1..], x);
      BelowTransitive(s[0], s[1], x);
    }
  }

  /** Sequences with equal multisets and equal heads have tails with equal multisets. */
  lemma SameHeadSameTail(s: seq<Str>, t: seq<Str>)
    requires s != [] && t != [] && s[0] == t[0]
    requires multiset(s) == multiset(t)
    ensures multiset(s[1..]) == multiset(t[1..])
  {
    assert s == [s[0]] + s[1..] && t == [t[0]] + t[1..];
    assert multiset(s[1..]) == multiset(s) - multiset{s[0]};
    assert multiset(t[1..]) == multiset(t) - multiset{t[0]};
  }

  /** Two sorted sequences with the same elements, counted with multiplicity, are equal. */
  lemma {:induction false} SortedUnique(s: seq<Str>, t: seq<Str>)
    requires Sorted(s) && Sorted(t)
    requires multiset(s) == multiset(t)
    ensures s == t
    decreases |s|
  {
    assert |t| == |multiset(t)| == |multiset(s)| == |s|;
    if s != [] {
      assert s[0] in multiset(t) && t[0] in multiset(s);
      SortedFirstIsLeast(t, s[0]);
      SortedFirstIsLeast(s, t[0]);
      BelowAntisymmetric(s[0], t[0]);
      SameHeadSameTail(s, t);
      SortedTail(s);
      SortedTail(t);
      SortedUnique(s[1..], t[1..]);
      assert s == [s[0]] + s[1..] && t == [t[0]] + t[1..];
    }
  }

  /** Exchanges two elements of `a` and leaves the others alone. */
  method Swap(a: array<Str>, i: nat, j: nat)
    requires i < a.Length && j < a.Length
    modifies a
    ensures a[..] == old(a[..])[i := old(a[j])][j := old(a[i])]
    ensures multiset(a[..]) == old(multiset(a[..]))
  {
    a[i], a[j] := a[j], a[i];
  }

  /** Sorts `a` in place: the result is ascending and a permutation of the input. */
  method Sort(a: array<Str>)
    modifies a
    ensures Sorted(a[..])
    ensures multiset(a[..]) == old(multiset(a[..]))
  {
    var i := 0;
    while i < a.Length
      invariant 0 <= i <= a.Length
      invariant forall k | 0 < k < i :: Below(a[k - 1], a[k])
      invariant multiset(a[..]) == old(multiset(a[..]))
    {
      // a[..i] is sorted; move a[i] down to its place.
      var j := i;
      while 0 < j && !Below(a[j - 1], a[j])
        invariant 0 <= j <= i
        invariant forall k | 0 < k < j :: Below(a[k - 1], a[k])
        invariant forall k | j < k <= i :: Below(a[k - 1], a[k])
        invariant 0 < j < i ==> Below(a[j - 1], a[j + 1])
        invariant multiset(a[..]) == old(multiset(a[..]))
      {
        BelowTotal(a[j - 1], a[j]);
        Swap(a, j - 1, j);
        j := j - 1;
      }
      i := i + 1;
    }
  }
}
