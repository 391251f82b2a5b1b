/** The meaningful-update rule: which changelog entries count, and the
    latest time among the creation time and the entries that count. */
module Changelog {
  import opened Common

  /** One changelog entry: who made it, when (microseconds since the epoch), and the field named
      by each of its change items. */
  datatype History = History(author: string, created: int, items: seq<string>)

  /** The parts of a fetched issue the checker reads. `changelog` is None when
      the issue carries no changelog at all. */
  datatype Issue = Issue(
    key: string,
    summary: string,
    status: string,
    assignee: Option<string>,
    created: int,
    updated: int,
    changelog: Option<seq<History>>)

  function Histories(issue: Issue): seq<History> {
    match issue.changelog
    case None => []
    case Some(hs) => hs
  }

  /** An entry counts when its author is not excluded and at least one of its
      items changes a field that is not excluded. */
  predicate IsMeaningful(h: History, excludeFields: seq<string>, excludeUsers: seq<string>) {
    h.author !in excludeUsers && exists f :: f in h.items && f !in excludeFields
  }

  /** The running maximum, started at `start` and fed the entries in order. */
  function LatestFrom(start: int, hs: seq<History>, excludeFields: seq<string>, excludeUsers: seq<string>): (r: int)
    ensures r >= start
    ensures (forall h :: h in hs ==> !IsMeaningful(h, excludeFields, excludeUsers)) ==> r == start
    decreases |hs|
  {
    if hs == [] then start
    else
      var next := if IsMeaningful(hs[0], excludeFields, excludeUsers) && hs[0].created > start
                  then hs[0].created else start;
      LatestFrom(next, hs[1..], excludeFields, excludeUsers)
  }

  /** The last meaningful update of an issue. */
  function LastMeaningful(issue: Issue, excludeFields: seq<string>, excludeUsers: seq<string>): (r: int)
    ensures r >= issue.created
    ensures Histories(issue) == [] ==> r == issue.created
  {
    LatestFrom(issue.created, Histories(issue), excludeFields, excludeUsers)
  }

  /** The running maximum is the maximum of the start value and the
      timestamps of the meaningful entries. */
  lemma {:induction false} LatestIsMaximum(start: int, hs: seq<History>, excludeFields: seq<string>, excludeUsers: seq<string>)
    ensures var r := LatestFrom(start, hs, excludeFields, excludeUsers);
      && start <= r
      && (forall h :: h in hs && IsMeaningful(h, excludeFields, excludeUsers) ==> h.created <= r)
      && (r == start || exists h :: h in hs && IsMeaningful(h, excludeFields, excludeUsers) && h.created == r)
    decreases |hs|
  {
    if hs != [] {
      var next := if IsMeaningful(hs[0], excludeFields, excludeUsers) && hs[0].created > start
                  then hs[0].created else start;
      LatestIsMaximum(next, hs[1..], excludeFields, excludeUsers);
      assert forall h :: h in hs ==> h == hs[0] || h in hs[1..];
    }
  }

  /** Only the set of meaningful entries matters: not their order, not the
      entries that do not count. */
  lemma SameMeaningfulEntriesSameResult(start: int, hs: seq<History>, hs': seq<History>, excludeFields: seq<string>, excludeUsers: seq<string>)
    requires forall h :: IsMeaningful(h, excludeFields, excludeUsers) ==> (h in hs <==> h in hs')
    ensures LatestFrom(start, hs, excludeFields, excludeUsers) == LatestFrom(start, hs', excludeFields, excludeUsers)
  {
    LatestIsMaximum(start, hs, excludeFields, excludeUsers);
    LatestIsMaximum(start, hs', excludeFields, excludeUsers);
  }

  /** The result does not depend on the order in which the tracker lists the entries. */
  lemma OrderIndependent(issue: Issue, issue': Issue, excludeFields: seq<string>, excludeUsers: seq<string>)
    requires issue'.created == issue.created
    requires multiset(Histories(issue)) == multiset(Histories(issue'))
    ensures LastMeaningful(issue, excludeFields, excludeUsers) == LastMeaningful(issue', excludeFields, excludeUsers)
  {
    var hs, hs' := Histories(issue), Histories(issue');
    forall h ensures h in hs <==> h in hs' {
      assert h in hs <==> h in multiset(hs);
      assert h in hs' <==> h in multiset(hs');
    }
    SameMeaningfulEntriesSameResult(issue.created, hs, hs', excludeFields, excludeUsers);
  }

  /** An entry by an excluded author, or one whose items (possibly none) are
      all excluded fields, never changes the result, wherever it stands. */
  lemma IgnoredEntryHasNoEffect(start: int, before: seq<History>, h: History, after: seq<History>, excludeFields: seq<string>, excludeUsers: seq<string>)
    requires h.author in excludeUsers || forall f :: f in h.items ==> f in excludeFields
    ensures LatestFrom(start, before + [h] + after, excludeFields, excludeUsers)
         == LatestFrom(start, before + after, excludeFields, excludeUsers)
  {
    assert !IsMeaningful(h, excludeFields, excludeUsers);
    var hs, hs' := before + [h] + after, before + after;
    forall g | IsMeaningful(g, excludeFields, excludeUsers) ensures g in hs <==> g in hs' {
      assert g in hs <==> g in before || g == h || g in after;
    }
    SameMeaningfulEntriesSameResult(start, hs, hs', excludeFields, excludeUsers);
  }

  /** Appending one entry: a meaningful entry later than the current result
      becomes the result; anything else leaves it unchanged. So the result
      never decreases as entries are added. */
  lemma {:induction false} AppendEntry(start: int, hs: seq<History>, h: History, excludeFields: seq<string>, excludeUsers: seq<string>)
    ensures var r := LatestFrom(start, hs, excludeFields, excludeUsers);
      LatestFrom(start, hs + [h], excludeFields, excludeUsers)
        == if IsMeaningful(h, excludeFields, excludeUsers) && h.created > r then h.created else r
    decreases |hs|
  {
    if hs == [] {
      assert hs + [h] == [h];
      assert ([h])[1..] == [];
    } else {
      var next := if IsMeaningful(hs[0], excludeFields, excludeUsers) && hs[0].created > start
                  then hs[0].created else start;
      assert (hs + [h])[0] == hs[0];
      assert (hs + [h])[1..] == hs[1..] + [h];
      AppendEntry(next, hs[1..], h, excludeFields, excludeUsers);
    }
  }

  /** An issue without a changelog, or with an empty one, was last
      meaningfully updated when it was created. */
  lemma NoHistoryMeansCreation(issue: Issue, excludeFields: seq<string>, excludeUsers: seq<string>)
    requires issue.changelog == None || issue.changelog == Some([])
    ensures LastMeaningful(issue, excludeFields, excludeUsers) == issue.created
  {
  }
}
