/** The two pure list expressions the component builds its new story lists
    with: prepending a new story, and filtering a story id out. */
module StoryList {
  import opened Types

  /** Number of entries of `xs` whose id is `id`. */
  function CountId(xs: seq<Story>, id: string): (n: nat)
    ensures n <= |xs|
    ensures n == 0 <==> forall y :: y in xs ==> y.id != id
  {
    if xs == [] then 0
    else (if xs[0].id == id then 1 else 0) + CountId(xs[1..], id)
  }

  /** `a` can be obtained from `b` by dropping entries, keeping the order of
      the rest. */
  predicate IsSubsequence(a: seq<Story>, b: seq<Story>)
    decreases |b|
  {
    if b == [] then a == []
    else (a != [] && a[0] == b[0] && IsSubsequence(a[1..], b[1..]))
         || IsSubsequence(a, b[1..])
  }

  /** The new list `[newStory, ...stories]` built when a story is saved. */
  function Prepend(s: Story, xs: seq<Story>): (r: seq<Story>)
    ensures |r| == |xs| + 1
    ensures r[0] == s && r[1..] == xs
    ensures forall y :: y in r <==> y == s || y in xs
  {
    [s] + xs
  }

  /** The new list `stories.filter(s => s.id !== id)` built when a story is
      deleted. */
  function Without(xs: seq<Story>, id: string): (r: seq<Story>)
    ensures |r| <= |xs|
    ensures forall y :: y in r <==> y in xs && y.id != id
  {
    if xs == [] then []
    else if xs[0].id != id then [xs[0]] + Without(xs[1..], id)
    else Without(xs[1..], id)
  }

  /** Filtering keeps the surviving stories in their original order. */
  lemma {:induction false} WithoutIsSubsequence(xs: seq<Story>, id: string)
    ensures IsSubsequence(Without(xs, id), xs)
  {
    if xs != [] {
      WithoutIsSubsequence(xs[1..], id);
    }
  }

  /** Filtering removes exactly the entries carrying `id`, duplicates
      included. */
  lemma {:induction false} WithoutLength(xs: seq<Story>, id: string)
    ensures |Without(xs, id)| == |xs| - CountId(xs, id)
  {
    if xs != [] {
      WithoutLength(xs[1..], id);
    }
  }

  /** A list free of `id` that keeps the order of `xs` is no longer than the
      entries of `xs` that do not carry `id`. */
  lemma {:induction false} SubsequenceAvoidingBound(a: seq<Story>, b: seq<Story>, id: string)
    requires IsSubsequence(a, b)
    requires forall y :: y in a ==> y.id != id
    ensures |a| <= |b| - CountId(b, id)
  {
    if b != [] {
      if a != [] && a[0] == b[0] && IsSubsequence(a[1..], b[1..]) {
        assert a[0] in a;
        assert forall y :: y in a[1..] ==> y in a;
        SubsequenceAvoidingBound(a[1..], b[1..], id);
      } else {
        SubsequenceAvoidingBound(a, b[1..], id);
      }
    }
  }

  /** Independent characterisation of the filter: the only order-preserving
      sublist of `xs` that is free of `id` and drops nothing else is
      `Without(xs, id)`. */
  lemma {:induction false} WithoutUnique(xs: seq<Story>, id: string, r: seq<Story>)
    requires IsSubsequence(r, xs)
    requires forall y :: y in r ==> y.id != id
    requires |r| == |xs| - CountId(xs, id)
    ensures r == Without(xs, id)
  {
    if xs != [] {
      var rest := xs[1..];
      if xs[0].id == id {
        assert !(r != [] && r[0] == xs[0]) by {
          if r != [] { assert r[0] in r; }
        }
        WithoutUnique(rest, id, r);
      } else {
        if !(r != [] && r[0] == xs[0] && IsSubsequence(r[1..], rest)) {
          SubsequenceAvoidingBound(r, rest, id);
          assert false;
        }
        assert forall y :: y in r[1..] ==> y in r;
        WithoutUnique(rest, id, r[1..]);
        assert r == [r[0]] + r[1..];
      }
    }
  }

  /** Deleting an id leaves the list unchanged exactly when no entry carries
      that id. */
  lemma {:induction false} WithoutUnchangedIff(xs: seq<Story>, id: string)
    ensures Without(xs, id) == xs <==> CountId(xs, id) == 0
  {
    WithoutLength(xs, id);
    if CountId(xs, id) == 0 {
      assert forall y :: y in xs ==> y.id != id;
      WithoutUnique(xs, id, xs) by {
        IsSubsequenceRefl(xs);
      }
    }
  }

  /** Every list keeps its own order. */
  lemma {:induction false} IsSubsequenceRefl(xs: seq<Story>)
    ensures IsSubsequence(xs, xs)
  {
    if xs != [] {
      IsSubsequenceRefl(xs[1..]);
    }
  }

  /** Saving a story whose id is already present adds a second entry with
      that id: there is no duplicate check. */
  lemma PrependAddsEntry(s: Story, xs: seq<Story>)
    ensures CountId(Prepend(s, xs), s.id) == CountId(xs, s.id) + 1
  {
  }

  /** Deleting the id of a freshly saved story removes it and every older
      entry with the same id. */
  lemma PrependThenWithout(s: Story, xs: seq<Story>)
    ensures Without(Prepend(s, xs), s.id) == Without(xs, s.id)
    ensures CountId(Without(Prepend(s, xs), s.id), s.id) == 0
  {
  }
}
