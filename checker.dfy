/** The checker object: it caches the field mapping and runs the per-issue
    evaluation, record assembly and sort. The tracker's field catalog and
    its search results are given to the methods as values. */
module Checker {
  import opened Common
  import opened Changelog
  import opened Fields
  import opened Results
  import opened RangeFilter

  /** The mapping the checker ends up with: the cached one when there is one,
      otherwise the one built from the catalog, or the empty mapping when
      the catalog could not be fetched. */
  function MappingFor(cache: Option<map<string, string>>, catalog: CatalogFetch): (r: map<string, string>)
    ensures cache.Some? ==> r == cache.value
    ensures cache.None? && catalog.Fetched? ==>
      r.Keys == ContributedKeys(catalog.fields) && forall k :: k in r ==> r[k] in CatalogIds(catalog.fields)
    ensures cache.None? && catalog.FetchFailed? ==> r == map[]
  {
    match cache
    case Some(m) => m
    case None =>
      match catalog
      case Fetched(fields) =>
        KeysContributed(fields);
        BuildMapping(fields)
      case FetchFailed => map[]
  }

  /** One record per fetched issue, in fetch order. */
  function Records(issues: seq<Issue>, excludeFields: seq<string>, excludeUsers: seq<string>, serverUrl: string): (rs: seq<Record>)
    ensures |rs| == |issues|
    ensures forall k :: 0 <= k < |issues| ==> rs[k] == MakeRecord(issues[k], excludeFields, excludeUsers, serverUrl)
  {
    seq(|issues|, k requires 0 <= k < |issues| => MakeRecord(issues[k], excludeFields, excludeUsers, serverUrl))
  }

  class StaleChecker {
    const serverUrl: string
    /** None until the first lookup; then the mapping, never rebuilt. */
    var fieldMapping: Option<map<string, string>>

    constructor (serverUrl: string)
      ensures this.serverUrl == serverUrl && fieldMapping == None
    {
      this.serverUrl := serverUrl;
      fieldMapping := None;
    }

    /** `_get_field_mapping`: the cached mapping if there is one (the catalog
        is then not consulted); otherwise the mapping built from the
        catalog, or the empty one when the fetch failed, which is cached. */
    method GetFieldMapping(catalog: CatalogFetch) returns (mapping: map<string, string>)
      modifies this
      ensures fieldMapping == Some(mapping)
      ensures old(fieldMapping).Some? ==> mapping == old(fieldMapping).value
      ensures old(fieldMapping).None? && catalog.Fetched? ==> mapping == BuildMapping(catalog.fields)
      ensures old(fieldMapping).None? && catalog.FetchFailed? ==> mapping == map[]
      ensures mapping == MappingFor(old(fieldMapping), catalog)
    {
      if fieldMapping.Some? {
        return fieldMapping.value;
      }
      fieldMapping := Some(map[]);
      match catalog {
        case FetchFailed =>
          fieldMapping := Some(map[]);
        case Fetched(fields) =>
          for i := 0 to |fields|
            invariant fieldMapping == Some(BuildMapping(fields[..i]))
          {
            var field := fields[i];
            var m := fieldMapping.value;
            m := m[field.name := field.id];
            m := m[Lower(field.name) := field.id];
            if StartsWith(field.id, CustomFieldPrefix) {
              m := m[field.id := field.id];
            }
            assert fields[..i + 1][..i] == fields[..i];
            fieldMapping := Some(m);
          }
          assert fields[..|fields|] == fields;
      }
      mapping := fieldMapping.value;
    }

    /** `_resolve_field_identifiers`: the resolved ids in input order, and
        the names that could not be resolved (reported as a warning). */
    method ResolveFieldIdentifiers(excludeFields: seq<string>, catalog: CatalogFetch)
      returns (resolved: seq<string>, invalid: seq<string>)
      modifies this
      ensures fieldMapping == Some(MappingFor(old(fieldMapping), catalog))
      ensures (resolved, invalid) == Resolve(MappingFor(old(fieldMapping), catalog), excludeFields)
    {
      var mapping := GetFieldMapping(catalog);
      resolved, invalid := [], [];
      for i := 0 to |excludeFields|
        invariant fieldMapping == Some(mapping)
        invariant (resolved, invalid) == Resolve(mapping, excludeFields[..i])
      {
        var field := excludeFields[i];
        assert excludeFields[..i + 1] == excludeFields[..i] + [field];
        ResolveSnoc(mapping, excludeFields[..i], field);
        if field in mapping {
          resolved := resolved + [mapping[field]];
        } else if Lower(field) in mapping {
          resolved := resolved + [mapping[Lower(field)]];
        } else if StartsWith(field, CustomFieldPrefix) {
          resolved := resolved + [field];
        } else {
          var fieldLower := Lower(field);
          if fieldLower in StandardFields {
            resolved := resolved + [StandardFields[fieldLower]];
          } else {
            invalid := invalid + [field];
          }
        }
      }
      assert excludeFields[..|excludeFields|] == excludeFields;
    }

    /** `_get_last_meaningful_update`: the latest of the creation time and
        the times of the entries that count. */
    method LastMeaningfulUpdate(issue: Issue, excludeFields: seq<string>, excludeUsers: seq<string>)
      returns (lastUpdate: int)
      ensures lastUpdate == LastMeaningful(issue, excludeFields, excludeUsers)
      ensures issue.created <= lastUpdate
      ensures forall h :: h in Histories(issue) && IsMeaningful(h, excludeFields, excludeUsers) ==> h.created <= lastUpdate
      ensures lastUpdate == issue.created
           || exists h :: h in Histories(issue) && IsMeaningful(h, excludeFields, excludeUsers) && h.created == lastUpdate
    {
      lastUpdate := issue.created;
      if issue.changelog.Some? {
        var histories := issue.changelog.value;
        for i := 0 to |histories|
          invariant LatestFrom(lastUpdate, histories[i..], excludeFields, excludeUsers)
                 == LatestFrom(issue.created, histories, excludeFields, excludeUsers)
        {
          var history := histories[i];
          assert histories[i..][1..] == histories[i + 1..];
          if history.author in excludeUsers {
            continue;
          }
          var hasMeaningfulChange := false;
          for k := 0 to |history.items|
            invariant hasMeaningfulChange <==> exists f :: f in history.items[..k] && f !in excludeFields
          {
            assert history.items[..k + 1] == history.items[..k] + [history.items[k]];
            if history.items[k] !in excludeFields {
              hasMeaningfulChange := true;
            }
          }
          assert history.items[..|history.items|] == history.items;
          if hasMeaningfulChange && history.created > lastUpdate {
            lastUpdate := history.created;
          }
        }
        assert histories[|histories|..] == [];
      }
      LatestIsMaximum(issue.created, Histories(issue), excludeFields, excludeUsers);
    }

    /** The record-building and sorting part of `get_issues_with_history`,
        over the issues the search returned: one record per issue, most
        recent meaningful update first, ties in fetch order. */
    method GetIssuesWithHistory(issues: seq<Issue>, excludeFields: seq<string>, excludeUsers: seq<string>, catalog: CatalogFetch)
      returns (results: seq<Record>)
      modifies this
      ensures fieldMapping == Some(MappingFor(old(fieldMapping), catalog))
      ensures results == SortDesc(Records(issues, Resolve(MappingFor(old(fieldMapping), catalog), excludeFields).0, excludeUsers, serverUrl))
      ensures |results| == |issues| && SortedDesc(results)
      ensures multiset(results) == multiset(Records(issues, Resolve(MappingFor(old(fieldMapping), catalog), excludeFields).0, excludeUsers, serverUrl))
      ensures forall t :: WithTime(results, t) == WithTime(Records(issues, Resolve(MappingFor(old(fieldMapping), catalog), excludeFields).0, excludeUsers, serverUrl), t)
    {
      var resolvedExcludeFields, _ := ResolveFieldIdentifiers(excludeFields, catalog);
      ghost var cached := fieldMapping;
      var records: seq<Record> := [];
      for i := 0 to |issues|
        invariant fieldMapping == cached
        invariant |records| == i
        invariant forall k :: 0 <= k < i ==> records[k] == MakeRecord(issues[k], resolvedExcludeFields, excludeUsers, serverUrl)
      {
        var issue := issues[i];
        var lastMeaningfulUpdate := LastMeaningfulUpdate(issue, resolvedExcludeFields, excludeUsers);
        records := records + [Record(
          issue.key, issue.summary, issue.status, AssigneeName(issue.assignee),
          issue.created, issue.updated, lastMeaningfulUpdate,
          serverUrl + "/browse/" + issue.key)];
      }
      ghost var expected := Records(issues, resolvedExcludeFields, excludeUsers, serverUrl);
      assert records == expected;
      var a := new Record[|records|](k requires 0 <= k < |records| => records[k]);
      assert a[..] == records;
      SortByLastUpdate(a);
      results := a[..];
      SortDescFacts(expected);
      forall t ensures WithTime(results, t) == WithTime(expected, t) {
        SortDescStable(expected, t);
      }
    }
  }

  /** The worked example: PROJ-1 created 2024-01-01, changed by alice on
      2024-02-01 (status) and by bot on 2024-03-01 (customfield_10001). */
  const Jan1: int := 1704067200000000
  const Jan15: int := 1705276800000000
  const Feb1: int := 1706745600000000
  const Mar1: int := 1709251200000000

  function ExampleIssue(): Issue {
    Issue("PROJ-1", "", "", None, Jan1, Mar1, Some([Alice, Bot]))
  }

  const ExampleFieldId: string := "customfield_10001"
  const Alice: History := History("alice", Feb1, ["status"])
  const Bot: History := History("bot", Mar1, [ExampleFieldId])

  lemma ExampleIdIsCustom()
    ensures IsCustomId(ExampleFieldId)
  {
    assert ExampleFieldId[..|CustomFieldPrefix|] == CustomFieldPrefix;
  }

  /** With a failed catalog fetch the custom-field id still resolves. */
  lemma ExampleResolution()
    ensures Resolve(MappingFor(None, FetchFailed), [ExampleFieldId]) == ([ExampleFieldId], [])
  {
    ExampleIdIsCustom();
    EmptyMappingResolution(ExampleFieldId);
    ResolveSingle(map[], ExampleFieldId);
  }

  /** Resolving the custom field after a failed catalog fetch and excluding
      what it resolves to leaves alice's change as the last meaningful one. */
  lemma ExampleExcludingField()
    ensures LastMeaningful(ExampleIssue(), Resolve(MappingFor(None, FetchFailed), [ExampleFieldId]).0, []) == Feb1
  {
    ExampleResolution();
    ExcludingFieldId();
  }

  lemma ExcludingFieldId()
    ensures LastMeaningful(ExampleIssue(), [ExampleFieldId], []) == Feb1
  {
    var excluded := [ExampleFieldId];
    assert IsMeaningful(Alice, excluded, []) by {
      assert "status" in Alice.items && "status" !in excluded;
    }
    assert !IsMeaningful(Bot, excluded, []) by {
      assert forall f :: f in Bot.items ==> f == ExampleFieldId;
    }
    calc {
      LastMeaningful(ExampleIssue(), excluded, []);
      LatestFrom(Jan1, [Alice, Bot], excluded, []);
      { assert [Alice, Bot][1..] == [Bot]; }
      LatestFrom(Feb1, [Bot], excluded, []);
      { assert [Bot][1..] == []; }
      LatestFrom(Feb1, [], excluded, []);
    }
  }

  /** Excluding alice as well leaves the creation time. */
  lemma ExampleExcludingFieldAndUser()
    ensures LastMeaningful(ExampleIssue(), Resolve(MappingFor(None, FetchFailed), [ExampleFieldId]).0, ["alice"]) == Jan1
  {
    ExampleResolution();
    ExcludingFieldIdAndUser();
  }

  lemma ExcludingFieldIdAndUser()
    ensures LastMeaningful(ExampleIssue(), [ExampleFieldId], ["alice"]) == Jan1
  {
    var excluded := [ExampleFieldId];
    assert !IsMeaningful(Alice, excluded, ["alice"]);
    assert !IsMeaningful(Bot, excluded, ["alice"]) by {
      assert forall f :: f in Bot.items ==> f == ExampleFieldId;
    }
    calc {
      LastMeaningful(ExampleIssue(), excluded, ["alice"]);
      LatestFrom(Jan1, [Alice, Bot], excluded, ["alice"]);
      { assert [Alice, Bot][1..] == [Bot]; }
      LatestFrom(Jan1, [Bot], excluded, ["alice"]);
      { assert [Bot][1..] == []; }
      LatestFrom(Jan1, [], excluded, ["alice"]);
    }
  }

  /** A since bound of 2024-01-15 keeps a record updated 2024-02-01; a
      before bound of 2024-01-15 drops it. */
  lemma ExampleFilter(r: Record)
    requires r.lastMeaningfulUpdate == Feb1
    ensures Filtered([r], Some(Jan15), None) == [r]
    ensures Filtered([r], None, Some(Jan15)) == []
  {
    assert [r][1..] == [];
  }
}
