/** Order-preserving selection over sequences: the shape of a SQL `WHERE` over a table
    scan and of a pandas boolean-mask selection. */
module Seqs {

  /** The elements of `s` that satisfy `keep`, in their original order. */
  function Filter<T(!new)>(s: seq<T>, keep: T -> bool): (r: seq<T>)
    ensures |r| <= |s|
    ensures forall x :: x in r <==> x in s && keep(x)
  {
    if |s| == 0 then [] else (if keep(s[0]) then [s[0]] else []) + Filter(s[1..], keep)
  }

  /** Filtering distributes over concatenation: the selection keeps stored order. */
  lemma {:induction false} FilterConcat<T(!new)>(a: seq<T>, b: seq<T>, keep: T -> bool)
    ensures Filter(a + b, keep) == Filter(a, keep) + Filter(b, keep)
  {
    if |a| == 0 {
      assert a + b == b;
    } else {
      assert (a + b)[1..] == a[1..] + b;
      FilterConcat(a[1..], b, keep);
    }
  }

  /** A filter that every element passes changes nothing. */
  lemma {:induction false} FilterKeepsAll<T(!new)>(s: seq<T>, keep: T -> bool)
    requires forall x :: x in s ==> keep(x)
    ensures Filter(s, keep) == s
  {
    if |s| > 0 {
      assert forall x :: x in s[1..] ==> x in s;
      FilterKeepsAll(s[1..], keep);
    }
  }

  /** A predicate no element satisfies selects nothing. */
  lemma {:induction false} FilterKeepsNone<T(!new)>(s: seq<T>, keep: T -> bool)
    requires forall x :: x in s ==> !keep(x)
    ensures Filter(s, keep) == []
  {
    if |s| > 0 {
      assert forall x :: x in s[1..] ==> x in s;
      FilterKeepsNone(s[1..], keep);
    }
  }

  /** Two predicates that agree on the elements of `s` select the same subsequence. */
  lemma {:induction false} FilterExt<T(!new)>(s: seq<T>, f: T -> bool, g: T -> bool)
    requires forall x :: x in s ==> f(x) == g(x)
    ensures Filter(s, f) == Filter(s, g)
  {
    if |s| > 0 {
      assert forall x :: x in s[1..] ==> x in s;
      FilterExt(s[1..], f, g);
    }
  }

  /** Filtering twice is filtering once by the conjunction. */
  lemma {:induction false} FilterFilter<T(!new)>(s: seq<T>, f: T -> bool, g: T -> bool, h: T -> bool)
    requires forall x :: x in s ==> h(x) == (f(x) && g(x))
    ensures Filter(Filter(s, f), g) == Filter(s, h)
  {
    if |s| > 0 {
      assert forall x :: x in s[1..] ==> x in s;
      FilterFilter(s[1..], f, g, h);
      assert Filter(s, f) == (if f(s[0]) then [s[0]] else []) + Filter(s[1..], f);
      FilterConcat(if f(s[0]) then [s[0]] else [], Filter(s[1..], f), g);
    }
  }

  /** At least two selected elements exactly when two distinct positions pass. */
  lemma FilterAtLeastTwo<T(!new)>(s: seq<T>, keep: T -> bool)
    ensures |Filter(s, keep)| >= 2 <==>
            exists i, j :: 0 <= i < j < |s| && keep(s[i]) && keep(s[j])
  {
    if |Filter(s, keep)| >= 2 {
      TwoSelectedHavePositions(s, keep);
    }
    if exists i, j :: 0 <= i < j < |s| && keep(s[i]) && keep(s[j]) {
      var i, j :| 0 <= i < j < |s| && keep(s[i]) && keep(s[j]);
      TwoPositionsAreSelected(s, keep, i, j);
    }
  }

  lemma {:induction false} TwoSelectedHavePositions<T(!new)>(s: seq<T>, keep: T -> bool)
    requires |Filter(s, keep)| >= 2
    ensures exists i, j :: 0 <= i < j < |s| && keep(s[i]) && keep(s[j])
  {
    var t := s[1..];
    if keep(s[0]) {
      assert |Filter(t, keep)| >= 1;
      var x := Filter(t, keep)[0];
      assert x in Filter(t, keep);
      var k :| 0 <= k < |t| && t[k] == x;
      assert s[k + 1] == t[k];
      assert keep(s[0]) && keep(s[k + 1]);
    } else {
      assert Filter(s, keep) == Filter(t, keep);
      TwoSelectedHavePositions(t, keep);
      var i, j :| 0 <= i < j < |t| && keep(t[i]) && keep(t[j]);
      assert s[i + 1] == t[i] && s[j + 1] == t[j];
    }
  }

  lemma {:induction false} TwoPositionsAreSelected<T(!new)>(s: seq<T>, keep: T -> bool, i: nat, j: nat)
    requires i < j < |s| && keep(s[i]) && keep(s[j])
    ensures |Filter(s, keep)| >= 2
  {
    var t := s[1..];
    assert s[j] == t[j - 1];
    if i == 0 {
      assert s[j] in Filter(t, keep);
    } else {
      assert s[i] == t[i - 1];
      TwoPositionsAreSelected(t, keep, i - 1, j - 1);
    }
  }

  /** When exactly one element is selected, it sits at a position that is the only one
      passing the filter. */
  lemma {:induction false} FilterExactlyOne<T(!new)>(s: seq<T>, keep: T -> bool)
    requires |Filter(s, keep)| == 1
    ensures exists i :: 0 <= i < |s| && s[i] == Filter(s, keep)[0] && keep(s[i]) &&
                        forall j :: 0 <= j < |s| && j != i ==> !keep(s[j])
  {
    var t := s[1..];
    if keep(s[0]) {
      assert |Filter(t, keep)| == 0;
      forall j | 0 < j < |s| ensures !keep(s[j]) {
        assert s[j] == t[j - 1];
        assert s[j] in t;
      }
      assert s[0] == Filter(s, keep)[0];
    } else {
      assert Filter(s, keep) == Filter(t, keep);
      FilterExactlyOne(t, keep);
      var i :| 0 <= i < |t| && t[i] == Filter(t, keep)[0] && keep(t[i]) &&
               forall j :: 0 <= j < |t| && j != i ==> !keep(t[j]);
      forall j | 0 <= j < |s| && j != i + 1 ensures !keep(s[j]) {
        if j > 0 { assert s[j] == t[j - 1]; }
      }
      assert s[i + 1] == t[i];
    }
  }

  /** A non-empty sequence is its prefix followed by its last element. */
  lemma SplitLast<T>(s: seq<T>)
    requires |s| > 0
    ensures s[..|s| - 1] + [s[|s| - 1]] == s
  {
  }

  /** The last element of a suffix, and what comes before it. */
  lemma SuffixLast<T>(s: seq<T>, k: nat)
    requires k < |s|
    ensures s[k..][..|s[k..]| - 1] == s[k..|s| - 1]
    ensures s[k..][|s[k..]| - 1] == s[|s| - 1]
  {
  }
}
