/**
 * The search bar: `searchBar(_:textDidChange:)` keeps the views whose
 * lowercased description or title label contains the lowercased search text
 * (every view for empty text), then replaces the stack's arranged views with
 * them. The filter always runs over the full view list.
 */
module Search {
  import opened Text
  import opened Records
  import opened Display

  /** The filter's predicate for one view. */
  predicate Keeps(v: CustomView, query: string) {
    || |query| == 0
    || Contains(Lower(v.descriptionText), Lower(query))
    || Contains(Lower(v.titleText), Lower(query))
  }

  /** `customViewList.filter { ... }`. */
  function Filter(views: seq<CustomView>, query: string): (r: seq<CustomView>)
    ensures |r| <= |views|
    ensures forall v | v in r :: v in views && Keeps(v, query)
    ensures forall v | v in views && Keeps(v, query) :: v in r
    decreases |views|
  {
    if |views| == 0 then []
    else
      var rest := Filter(views[1..], query);
      assert forall v | v in views[1..] :: v in views;
      assert forall v | v in views && v != views[0] :: v in views[1..];
      if Keeps(views[0], query) then [views[0]] + rest else rest
  }

  /** `a` is `b` with some elements left out, the rest in their order. */
  predicate IsSubsequence<T(==)>(a: seq<T>, b: seq<T>)
    decreases |b|
  {
    || |a| == 0
    || (|b| > 0 && ((a[0] == b[0] && IsSubsequence(a[1..], b[1..])) || IsSubsequence(a, b[1..])))
  }

  lemma {:induction false} SubsequenceRefl<T>(a: seq<T>)
    ensures IsSubsequence(a, a)
    decreases |a|
  {
    if |a| > 0 {
      SubsequenceRefl(a[1..]);
    }
  }

  /** Filtering never adds or reorders views. */
  lemma {:induction false} FilterIsSubsequence(views: seq<CustomView>, query: string)
    ensures IsSubsequence(Filter(views, query), views)
    decreases |views|
  {
    if |views| > 0 {
      FilterIsSubsequence(views[1..], query);
      var rest := Filter(views[1..], query);
      if Keeps(views[0], query) {
        assert ([views[0]] + rest)[1..] == rest;
      }
    }
  }

  /** An empty search text keeps every view, in order. */
  lemma {:induction false} EmptyQueryKeepsAll(views: seq<CustomView>)
    ensures Filter(views, "") == views
    decreases |views|
  {
    if |views| > 0 {
      EmptyQueryKeepsAll(views[1..]);
      assert [views[0]] + views[1..] == views;
    }
  }

  /** Filtering the filtered list changes nothing. */
  lemma {:induction false} FilterIdempotent(views: seq<CustomView>, query: string)
    ensures Filter(Filter(views, query), query) == Filter(views, query)
    decreases |views|
  {
    if |views| > 0 {
      FilterIdempotent(views[1..], query);
      var rest := Filter(views[1..], query);
      if Keeps(views[0], query) {
        assert ([views[0]] + rest)[1..] == rest;
      }
    }
  }

  /** Search texts that differ only in letter case keep the same views. */
  lemma {:induction false} CaseInsensitive(views: seq<CustomView>, q1: string, q2: string)
    requires Lower(q1) == Lower(q2)
    ensures Filter(views, q1) == Filter(views, q2)
    decreases |views|
  {
    if |views| > 0 {
      assert Keeps(views[0], q1) == Keeps(views[0], q2);
      CaseInsensitive(views[1..], q1, q2);
    }
  }

  /** A search text containing another keeps no view the other would drop. */
  lemma NarrowerKeepsLess(v: CustomView, q1: string, q2: string)
    requires Contains(Lower(q1), Lower(q2))
    requires Keeps(v, q1)
    ensures Keeps(v, q2)
  {
    if |q2| > 0 {
      if Contains(Lower(v.descriptionText), Lower(q1)) {
        ContainsTransitive(Lower(v.descriptionText), Lower(q1), Lower(q2));
      } else if Contains(Lower(v.titleText), Lower(q1)) {
        ContainsTransitive(Lower(v.titleText), Lower(q1), Lower(q2));
      }
    }
  }

  lemma SubsequenceSkip<T>(a: seq<T>, x: T, b: seq<T>)
    requires IsSubsequence(a, b)
    ensures IsSubsequence(a, [x] + b)
  {
    assert ([x] + b)[1..] == b;
  }

  /**
   * Refining a search (typing more) keeps a subsequence of what the broader
   * text keeps.
   */
  lemma {:induction false} NarrowerIsSubsequence(views: seq<CustomView>, q1: string, q2: string)
    requires Contains(Lower(q1), Lower(q2))
    ensures IsSubsequence(Filter(views, q1), Filter(views, q2))
    decreases |views|
  {
    if |views| > 0 {
      NarrowerIsSubsequence(views[1..], q1, q2);
      var r1 := Filter(views[1..], q1);
      var r2 := Filter(views[1..], q2);
      if Keeps(views[0], q1) {
        NarrowerKeepsLess(views[0], q1, q2);
        assert ([views[0]] + r1)[1..] == r1;
        assert ([views[0]] + r2)[1..] == r2;
      } else if Keeps(views[0], q2) {
        SubsequenceSkip(r1, views[0], r2);
      }
    }
  }

  /**
   * The title label starts with "Name: ", so the text "name" (in any case)
   * keeps every view built from a record.
   */
  lemma LabelPrefixMatches(rec: ImageData, index: nat, formatDate: string -> string)
    ensures Keeps(MakeView(rec, index, formatDate), "name")
  {
    var v := MakeView(rec, index, formatDate);
    var t := Lower(v.titleText);
    assert v.titleText[..4] == "Name";
    assert Lower("name") == "name";
    assert t[..4] == "name";
    ContainsPrefix(t, "name");
  }

  /**
   * `searchBar(_:textDidChange:)`: removes every arranged view, then arranges
   * the filtered views in order. The result depends only on the view list and
   * the search text, never on what the stack held before.
   */
  method SearchTextDidChange(views: seq<CustomView>, stack: seq<CustomView>, query: string)
    returns (stack': seq<CustomView>)
    ensures stack' == Filter(views, query)
    ensures IsSubsequence(stack', views)
    ensures forall v | v in views :: (v in stack' <==> Keeps(v, query))
  {
    var filtered := Filter(views, query);
    FilterIsSubsequence(views, query);
    stack' := stack;
    while |stack'| > 0
      decreases |stack'|
    {
      stack' := stack'[1..];
    }
    var i := 0;
    while i < |filtered|
      invariant 0 <= i <= |filtered|
      invariant stack' == filtered[..i]
    {
      stack' := stack' + [filtered[i]];
      i := i + 1;
    }
    assert filtered[..i] == filtered;
  }
}
