/** Result records and their ordering: most recent meaningful update first,
    ties kept in fetch order (a stable sort with `reverse=True`). */
module Results {
  import opened Common
  import opened Changelog

  /** One result row. */
  datatype Record = Record(
    key: string,
    summary: string,
    status: string,
    assignee: string,
    created: int,
    updated: int,
    lastMeaningfulUpdate: int,
    url: string)

  const Unassigned: string := "Unassigned"

  function AssigneeName(assignee: Option<string>): (r: string)
    ensures assignee.Some? ==> r == assignee.value
    ensures assignee.None? ==> r == Unassigned
  {
    match assignee
    case None => Unassigned
    case Some(name) => name
  }

  /** The record built for one fetched issue. */
  function MakeRecord(issue: Issue, excludeFields: seq<string>, excludeUsers: seq<string>, serverUrl: string): (r: Record)
    ensures r.key == issue.key && r.summary == issue.summary && r.status == issue.status
    ensures r.assignee == AssigneeName(issue.assignee)
    ensures r.created == issue.created && r.updated == issue.updated
    ensures r.lastMeaningfulUpdate == LastMeaningful(issue, excludeFields, excludeUsers)
    ensures r.lastMeaningfulUpdate >= issue.created
    ensures r.url == serverUrl + "/browse/" + issue.key
  {
    LatestIsMaximum(issue.created, Histories(issue), excludeFields, excludeUsers);
    Record(issue.key, issue.summary, issue.status, AssigneeName(issue.assignee),
           issue.created, issue.updated, LastMeaningful(issue, excludeFields, excludeUsers),
           serverUrl + "/browse/" + issue.key)
  }

  /** Non-increasing by last meaningful update. */
  predicate SortedDesc(s: seq<Record>) {
    forall i, j :: 0 <= i < j < |s| ==> s[i].lastMeaningfulUpdate >= s[j].lastMeaningfulUpdate
  }

  /** Places `x` after every element whose timestamp is at least its own. */
  function InsertDesc(x: Record, s: seq<Record>): (r: seq<Record>)
    ensures |r| == |s| + 1
  {
    if s == [] then [x]
    else if s[0].lastMeaningfulUpdate < x.lastMeaningfulUpdate then [x] + s
    else [s[0]] + InsertDesc(x, s[1..])
  }

  /** Insertion sort, taking the elements left to right. */
  function SortDesc(s: seq<Record>): (r: seq<Record>)
    ensures |r| == |s|
    decreases |s|
  {
    if s == [] then [] else InsertDesc(s[|s| - 1], SortDesc(s[..|s| - 1]))
  }

  /** The elements whose timestamp is `t`, in order. */
  function WithTime(s: seq<Record>, t: int): seq<Record> {
    if s == [] then []
    else (if s[0].lastMeaningfulUpdate == t then [s[0]] else []) + WithTime(s[1..], t)
  }

  lemma {:induction false} InsertDescElements(x: Record, s: seq<Record>)
    ensures multiset(InsertDesc(x, s)) == multiset(s) + multiset{x}
    decreases |s|
  {
    if s != [] && s[0].lastMeaningfulUpdate >= x.lastMeaningfulUpdate {
      InsertDescElements(x, s[1..]);
      assert s == [s[0]] + s[1..];
    }
  }

  lemma SortedCons(h: Record, r: seq<Record>)
    requires SortedDesc(r)
    requires forall k :: 0 <= k < |r| ==> h.lastMeaningfulUpdate >= r[k].lastMeaningfulUpdate
    ensures SortedDesc([h] + r)
  {
    var c := [h] + r;
    forall i, j | 0 <= i < j < |c| ensures c[i].lastMeaningfulUpdate >= c[j].lastMeaningfulUpdate {
      assert c[j] == r[j - 1];
      if i > 0 { assert c[i] == r[i - 1]; }
    }
  }

  lemma {:induction false} InsertDescSorted(x: Record, s: seq<Record>)
    requires SortedDesc(s)
    ensures SortedDesc(InsertDesc(x, s))
    decreases |s|
  {
    if s == [] {
    } else if s[0].lastMeaningfulUpdate < x.lastMeaningfulUpdate {
      SortedCons(x, s);
    } else {
      assert SortedDesc(s[1..]) by {
        forall i, j | 0 <= i < j < |s[1..]|
          ensures s[1..][i].lastMeaningfulUpdate >= s[1..][j].lastMeaningfulUpdate
        {
          assert s[1..][i] == s[i + 1] && s[1..][j] == s[j + 1];
        }
      }
      InsertDescSorted(x, s[1..]);
      var r := InsertDesc(x, s[1..]);
      InsertDescElements(x, s[1..]);
      forall k | 0 <= k < |r| ensures s[0].lastMeaningfulUpdate >= r[k].lastMeaningfulUpdate {
        assert r[k] in multiset(r);
        if r[k] != x {
          assert r[k] in multiset(s[1..]);
          var m :| 0 <= m < |s[1..]| && s[1..][m] == r[k];
          assert s[m + 1] == r[k];
        }
      }
      SortedCons(s[0], r);
    }
  }

  /** The sort's output is a permutation of its input. */
  lemma {:induction false} SortDescPermutes(s: seq<Record>)
    ensures multiset(SortDesc(s)) == multiset(s)
    decreases |s|
  {
    if s != [] {
      var n := |s| - 1;
      var init, last := s[..n], s[n];
      assert s == init + [last];
      assert multiset(SortDesc(s)) == multiset(SortDesc(init)) + multiset{last} by {
        assert SortDesc(s) == InsertDesc(last, SortDesc(init));
        InsertDescElements(last, SortDesc(init));
      }
      SortDescPermutes(init);
    }
  }

  /** The sort's output is ordered. */
  lemma {:induction false} SortDescSorted(s: seq<Record>)
    ensures SortedDesc(SortDesc(s))
    decreases |s|
  {
    if s != [] {
      var n := |s| - 1;
      SortDescSorted(s[..n]);
      InsertDescSorted(s[n], SortDesc(s[..n]));
    }
  }

  /** The sort's output is ordered, and a permutation of its input. */
  lemma SortDescFacts(s: seq<Record>)
    ensures SortedDesc(SortDesc(s))
    ensures multiset(SortDesc(s)) == multiset(s)
    ensures |SortDesc(s)| == |s|
  {
    SortDescSorted(s);
    SortDescPermutes(s);
    assert |SortDesc(s)| == |multiset(SortDesc(s))| == |multiset(s)| == |s|;
  }

  lemma {:induction false} WithTimeConcat(a: seq<Record>, b: seq<Record>, t: int)
    ensures WithTime(a + b, t) == WithTime(a, t) + WithTime(b, t)
    decreases |a|
  {
    if a == [] {
      assert a + b == b;
    } else {
      var head := if a[0].lastMeaningfulUpdate == t then [a[0]] else [];
      assert (a + b)[0] == a[0];
      assert (a + b)[1..] == a[1..] + b;
      assert WithTime(a + b, t) == head + WithTime(a[1..] + b, t);
      WithTimeConcat(a[1..], b, t);
      assert head + (WithTime(a[1..], t) + WithTime(b, t)) == (head + WithTime(a[1..], t)) + WithTime(b, t);
    }
  }

  lemma {:induction false} WithTimeNone(s: seq<Record>, t: int)
    requires forall k :: 0 <= k < |s| ==> s[k].lastMeaningfulUpdate < t
    ensures WithTime(s, t) == []
    decreases |s|
  {
    if s != [] {
      WithTimeNone(s[1..], t);
    }
  }

  /** Inserting keeps the relative order of records with the same time,
      the inserted one coming after those already placed. */
  lemma {:induction false} InsertDescStable(x: Record, s: seq<Record>, t: int)
    requires SortedDesc(s)
    ensures WithTime(InsertDesc(x, s), t)
         == WithTime(s, t) + (if x.lastMeaningfulUpdate == t then [x] else [])
    decreases |s|
  {
    if s == [] {
    } else if s[0].lastMeaningfulUpdate < x.lastMeaningfulUpdate {
      assert InsertDesc(x, s) == [x] + s;
      assert ([x] + s)[1..] == s;
      if x.lastMeaningfulUpdate == t {
        WithTimeNone(s, t);
      }
    } else {
      var r := InsertDesc(x, s[1..]);
      InsertDescElements(x, s[1..]);
      assert InsertDesc(x, s) == [s[0]] + r;
      assert ([s[0]] + r)[1..] == r;
      InsertDescStable(x, s[1..], t);
    }
  }

  /** Stability: among records with equal timestamps the output keeps the
      input order. */
  lemma {:induction false} SortDescStable(s: seq<Record>, t: int)
    ensures WithTime(SortDesc(s), t) == WithTime(s, t)
    decreases |s|
  {
    if s != [] {
      var n := |s| - 1;
      var init, last := s[..n], s[n];
      var tail := if last.lastMeaningfulUpdate == t then [last] else [];
      SortDescSorted(init);
      assert WithTime([last], t) == tail by {
        assert [last][1..] == [];
      }
      calc {
        WithTime(SortDesc(s), t);
        { assert SortDesc(s) == InsertDesc(last, SortDesc(init)); }
        WithTime(InsertDesc(last, SortDesc(init)), t);
        { InsertDescStable(last, SortDesc(init), t); }
        WithTime(SortDesc(init), t) + tail;
        { SortDescStable(init, t); }
        WithTime(init, t) + WithTime([last], t);
        { WithTimeConcat(init, [last], t); }
        WithTime(init + [last], t);
        { assert init + [last] == s; }
        WithTime(s, t);
      }
    }
  }

  /** Where the in-place insertion loop stops, the functional insert agrees. */
  lemma {:induction false} InsertDescAt(x: Record, s: seq<Record>, j: nat)
    requires SortedDesc(s) && j <= |s|
    requires j > 0 ==> s[j - 1].lastMeaningfulUpdate >= x.lastMeaningfulUpdate
    requires forall k :: j <= k < |s| ==> s[k].lastMeaningfulUpdate < x.lastMeaningfulUpdate
    ensures InsertDesc(x, s) == s[..j] + [x] + s[j..]
    decreases j
  {
    if j == 0 {
      assert s[..0] == [];
      assert s[0..] == s;
    } else {
      assert s[0].lastMeaningfulUpdate >= s[j - 1].lastMeaningfulUpdate;
      InsertDescAt(x, s[1..], j - 1);
      assert s[1..][..j - 1] == s[1..j];
      assert s[1..][j - 1..] == s[j..];
      assert s[..j] == [s[0]] + s[1..j];
    }
  }

  lemma PlacedAt(b: seq<Record>, prefix: seq<Record>, x: Record, j: nat)
    requires j <= |prefix| < |b|
    requires forall k :: 0 <= k < j ==> b[k] == prefix[k]
    requires b[j] == x
    requires forall k :: j < k <= |prefix| ==> b[k] == prefix[k - 1]
    ensures b[..|prefix| + 1] == prefix[..j] + [x] + prefix[j..]
  {
    var placed := prefix[..j] + [x] + prefix[j..];
    forall k | 0 <= k <= |prefix| ensures b[k] == placed[k] {
      if k < j { assert placed[k] == prefix[k]; }
      else if k > j { assert placed[k] == prefix[j..][k - j - 1]; }
    }
  }

  /** The inner loop of one insertion pass: shifts right, by one place,
      the records left of `i` whose timestamps are earlier than `x`'s,
      and returns the slot freed. */
  method ShiftRight(a: array<Record>, i: nat, x: Record) returns (j: nat)
    requires i < a.Length
    modifies a
    ensures j <= i
    ensures forall k :: 0 <= k < j ==> a[k] == old(a[k])
    ensures forall k :: j < k <= i ==> a[k] == old(a[k - 1])
    ensures forall k :: i < k < a.Length ==> a[k] == old(a[k])
    ensures j > 0 ==> old(a[j - 1]).lastMeaningfulUpdate >= x.lastMeaningfulUpdate
    ensures forall k :: j <= k < i ==> old(a[k]).lastMeaningfulUpdate < x.lastMeaningfulUpdate
  {
    j := i;
    while j > 0 && a[j - 1].lastMeaningfulUpdate < x.lastMeaningfulUpdate
      invariant 0 <= j <= i
      invariant forall k :: 0 <= k < j ==> a[k] == old(a[k])
      invariant forall k :: j < k <= i ==> a[k] == old(a[k - 1])
      invariant forall k :: i < k < a.Length ==> a[k] == old(a[k])
      invariant forall k :: j <= k < i ==> old(a[k]).lastMeaningfulUpdate < x.lastMeaningfulUpdate
    {
      a[j] := a[j - 1];
      j := j - 1;
    }
  }

  /** One pass of the insertion sort: moves `a[i]` left past every record
      of the sorted prefix `a[..i]` with an earlier timestamp. */
  method InsertInto(a: array<Record>, i: nat)
    requires i < a.Length && SortedDesc(a[..i])
    modifies a
    ensures a[..i + 1] == InsertDesc(old(a[i]), old(a[..i]))
    ensures a[i + 1..] == old(a[i + 1..])
  {
    ghost var prefix := a[..i];
    ghost var rest := a[i + 1..];
    var x := a[i];
    var j := ShiftRight(a, i, x);
    a[j] := x;
    PlacedAt(a[..], prefix, x, j);
    InsertDescAt(x, prefix, j);
    assert a[i + 1..] == rest;
  }

  /** `results.sort(key=last_meaningful_update, reverse=True)`, in place. */
  method SortByLastUpdate(a: array<Record>)
    modifies a
    ensures a[..] == SortDesc(old(a[..]))
  {
    ghost var input := a[..];
    var i := 0;
    while i < a.Length
      invariant 0 <= i <= a.Length
      invariant a[..i] == SortDesc(input[..i])
      invariant a[i..] == input[i..]
    {
      SortDescFacts(input[..i]);
      assert a[i] == input[i];
      InsertInto(a, i);
      assert input[..i + 1][..i] == input[..i];
      i := i + 1;
    }
    assert input[..a.Length] == input;
  }
}
