/** `filter_issues_by_date_range`: keep the records whose last meaningful
    update lies within the optional, inclusive since/before bounds. */
module RangeFilter {
  import opened Common
  import opened Results

  predicate InRange(t: int, since: Option<int>, before: Option<int>) {
    (since.None? || since.value <= t) && (before.None? || t <= before.value)
  }

  /** The records that pass, in input order. */
  function Filtered(xs: seq<Record>, since: Option<int>, before: Option<int>): (r: seq<Record>)
    ensures |r| <= |xs|
    ensures forall i :: 0 <= i < |r| ==> InRange(r[i].lastMeaningfulUpdate, since, before)
  {
    if xs == [] then []
    else (if InRange(xs[0].lastMeaningfulUpdate, since, before) then [xs[0]] else [])
         + Filtered(xs[1..], since, before)
  }

  /** `a` can be obtained from `b` by deleting elements. */
  predicate IsSubsequence<T(==)>(a: seq<T>, b: seq<T>)
    decreases |b|
  {
    if a == [] then true
    else if b == [] then false
    else (a[0] == b[0] && IsSubsequence(a[1..], b[1..])) || IsSubsequence(a, b[1..])
  }

  method FilterIssuesByDateRange(issues: seq<Record>, since: Option<int>, before: Option<int>)
    returns (filtered: seq<Record>)
    ensures since.None? && before.None? ==> filtered == issues
    ensures filtered == Filtered(issues, since, before)
  {
    if since.None? && before.None? {
      NoBoundsKeepsAll(issues);
      return issues;
    }
    filtered := [];
    for i := 0 to |issues|
      invariant filtered + Filtered(issues[i..], since, before) == Filtered(issues, since, before)
    {
      var issueLastUpdate := issues[i].lastMeaningfulUpdate;
      var includeIssue := true;
      if since.Some? && issueLastUpdate < since.value {
        includeIssue := false;
      }
      if before.Some? && issueLastUpdate > before.value {
        includeIssue := false;
      }
      assert includeIssue == InRange(issueLastUpdate, since, before);
      FilterAdvance(filtered, issues, i, since, before);
      if includeIssue {
        filtered := filtered + [issues[i]];
      } else {
        assert filtered + [] == filtered;
      }
    }
    assert filtered + Filtered(issues[|issues|..], since, before) == Filtered(issues, since, before);
    assert issues[|issues|..] == [];
    assert filtered + [] == filtered;
  }

  /** One step of the loop above keeps its invariant. */
  lemma FilterAdvance(acc: seq<Record>, xs: seq<Record>, i: nat, since: Option<int>, before: Option<int>)
    requires i < |xs| && acc + Filtered(xs[i..], since, before) == Filtered(xs, since, before)
    ensures (acc + (if InRange(xs[i].lastMeaningfulUpdate, since, before) then [xs[i]] else []))
            + Filtered(xs[i + 1..], since, before) == Filtered(xs, since, before)
  {
    FilteredStep(xs, i, since, before);
    var e := if InRange(xs[i].lastMeaningfulUpdate, since, before) then [xs[i]] else [];
    Regroup(acc, e, Filtered(xs[i + 1..], since, before));
  }

  lemma Regroup<T>(a: seq<T>, b: seq<T>, c: seq<T>)
    ensures (a + b) + c == a + (b + c)
  {
  }

  lemma FilteredStep(xs: seq<Record>, i: nat, since: Option<int>, before: Option<int>)
    requires i < |xs|
    ensures Filtered(xs[i..], since, before)
         == (if InRange(xs[i].lastMeaningfulUpdate, since, before) then [xs[i]] else []) + Filtered(xs[i + 1..], since, before)
  {
    assert xs[i..][1..] == xs[i + 1..];
  }

  /** With neither bound, every record passes. */
  lemma {:induction false} NoBoundsKeepsAll(xs: seq<Record>)
    ensures Filtered(xs, None, None) == xs
  {
    if xs != [] {
      NoBoundsKeepsAll(xs[1..]);
    }
  }

  /** A record is kept exactly when it is in the input and within the bounds. */
  lemma {:induction false} FilteredMembers(xs: seq<Record>, since: Option<int>, before: Option<int>)
    ensures forall x ::
      x in Filtered(xs, since, before) <==> x in xs && InRange(x.lastMeaningfulUpdate, since, before)
  {
    if xs != [] {
      FilteredMembers(xs[1..], since, before);
      assert forall x :: x in xs <==> x == xs[0] || x in xs[1..];
    }
  }

  /** The output keeps the input order: it is a subsequence of the input. */
  lemma {:induction false} FilteredIsSubsequence(xs: seq<Record>, since: Option<int>, before: Option<int>)
    ensures IsSubsequence(Filtered(xs, since, before), xs)
    ensures |Filtered(xs, since, before)| <= |xs|
  {
    if xs != [] {
      var r := Filtered(xs[1..], since, before);
      FilteredIsSubsequence(xs[1..], since, before);
      if InRange(xs[0].lastMeaningfulUpdate, since, before) {
        assert Filtered(xs, since, before) == [xs[0]] + r;
        assert ([xs[0]] + r)[1..] == r;
      } else {
        assert Filtered(xs, since, before) == r;
        SubsequenceDropHead(r, xs);
      }
    }
  }

  lemma SubsequenceDropHead<T>(a: seq<T>, b: seq<T>)
    requires b != [] && IsSubsequence(a, b[1..])
    ensures IsSubsequence(a, b)
  {
  }

  /** Filtering twice with the same bounds is filtering once. */
  lemma {:induction false} FilterIdempotent(xs: seq<Record>, since: Option<int>, before: Option<int>)
    ensures Filtered(Filtered(xs, since, before), since, before) == Filtered(xs, since, before)
  {
    if xs != [] {
      var r := Filtered(xs[1..], since, before);
      FilterIdempotent(xs[1..], since, before);
      if InRange(xs[0].lastMeaningfulUpdate, since, before) {
        assert Filtered(xs, since, before) == [xs[0]] + r;
        assert ([xs[0]] + r)[0] == xs[0];
        assert ([xs[0]] + r)[1..] == r;
      } else {
        assert Filtered(xs, since, before) == r;
      }
    }
  }

  /** Filtering a sorted result keeps it sorted. */
  lemma FilterKeepsSorted(xs: seq<Record>, since: Option<int>, before: Option<int>)
    requires SortedDesc(xs)
    ensures SortedDesc(Filtered(xs, since, before))
  {
    FilteredIsSubsequence(xs, since, before);
    SubsequenceOfSorted(Filtered(xs, since, before), xs);
  }

  lemma {:induction false} SubsequenceOfSorted(a: seq<Record>, b: seq<Record>)
    requires IsSubsequence(a, b) && SortedDesc(b)
    ensures SortedDesc(a)
    ensures forall k :: 0 <= k < |a| ==> a[k] in b
    decreases |b|
  {
    if a != [] {
      assert SortedDesc(b[1..]) by {
        forall i, j | 0 <= i < j < |b[1..]|
          ensures b[1..][i].lastMeaningfulUpdate >= b[1..][j].lastMeaningfulUpdate
        {
          assert b[1..][i] == b[i + 1] && b[1..][j] == b[j + 1];
        }
      }
      if a[0] == b[0] && IsSubsequence(a[1..], b[1..]) {
        SubsequenceOfSorted(a[1..], b[1..]);
        forall k | 0 <= k < |a| ensures a[k] in b {
          if k > 0 { assert a[k] == a[1..][k - 1]; }
        }
        forall i, j | 0 <= i < j < |a| ensures a[i].lastMeaningfulUpdate >= a[j].lastMeaningfulUpdate {
          assert a[j] == a[1..][j - 1];
          assert a[j] in b[1..];
          var m :| 0 <= m < |b[1..]| && b[1..][m] == a[j];
          if i > 0 { assert a[i] == a[1..][i - 1]; } else { assert b[0].lastMeaningfulUpdate >= b[m + 1].lastMeaningfulUpdate; }
        }
      } else {
        SubsequenceOfSorted(a, b[1..]);
      }
    }
  }
}
