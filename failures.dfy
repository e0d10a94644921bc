/** The failing-test list of a ticket: history links and the selection filter (tickets.go). */
module FailureList {
  import opened Types
  import opened TestNames

  /** The history page of task `t`: everything of a history link before its anchor. */
  function HistoryPrefix(t: Task): string
  {
    UIRoot + "/task_history/" + t.Project + "/" + t.DisplayName
  }

  /**
   * Link to the failure history of one test: the task's history page with the
   * anchor `testName + "=fail"`; no escaping is applied.
   */
  function HistoryURL(t: Task, testName: string): (r: string)
    ensures |r| == |HistoryPrefix(t)| + |testName| + 6
    ensures r[..|HistoryPrefix(t)| + 1] == HistoryPrefix(t) + "#"
    ensures r[|HistoryPrefix(t)| + 1..|r| - 5] == testName
    ensures r[|r| - 5..] == "=fail"
  {
    HistoryPrefix(t) + "#" + testName + "=fail"
  }

  /**
   * Reads the test name back out of a history link of task `t`: the link must be
   * the task's history page, then "#", the name, and "=fail".
   */
  function TestNameOfHistoryURL(t: Task, url: string): (r: Option<string>)
    ensures r.Some? ==> url == HistoryURL(t, r.value)
  {
    var pre := HistoryPrefix(t) + "#";
    if |url| < |pre| + 5 || url[..|pre|] != pre || url[|url| - 5..] != "=fail" then None
    else
      assert url == url[..|pre|] + url[|pre|..|url| - 5] + url[|url| - 5..];
      Some(url[|pre|..|url| - 5])
  }

  /** The test name can always be read back from the link, so distinct names give distinct links. */
  lemma HistoryURLRoundTrip(t: Task, testName: string)
    ensures TestNameOfHistoryURL(t, HistoryURL(t, testName)) == Some(testName)
  {
  }

  /** The results of `results` whose raw test file is selected, in stored order. */
  function Selected(results: seq<TestResult>, ids: set<string>): (r: seq<TestResult>)
    ensures |r| <= |results|
  {
    if results == [] then []
    else
      var last := results[|results| - 1];
      Selected(results[..|results| - 1], ids) + (if last.TestFile in ids then [last] else [])
  }

  /** The ticket entry for one recorded result: its display name, its log URL and its history link. */
  function ToFailure(t: Task, res: TestResult): (r: TestFailure)
    ensures r.Name == CleanTestName(res.TestFile) && '/' !in r.Name
    ensures r.URL == res.URL
    ensures r.HistoryURL == HistoryURL(t, r.Name)
  {
    var name := CleanTestName(res.TestFile);
    TestFailure(name, res.URL, HistoryURL(t, name))
  }

  /** The ticket entries for the results `sel` of task `t`, in order. */
  function FailuresOf(t: Task, sel: seq<TestResult>): seq<TestFailure>
  {
    seq(|sel|, k requires 0 <= k < |sel| => ToFailure(t, sel[k]))
  }

  /** The ticket entries for the selected results of task `t`. */
  function Failures(t: Task, ids: set<string>): seq<TestFailure>
  {
    FailuresOf(t, Selected(t.TestResults, ids))
  }

  /** One more stored result extends the entries by its own entry, if it is selected. */
  lemma FailuresStep(t: Task, results: seq<TestResult>, j: nat, ids: set<string>)
    requires j < |results|
    ensures FailuresOf(t, Selected(results[..j + 1], ids))
      == FailuresOf(t, Selected(results[..j], ids))
         + (if results[j].TestFile in ids then [ToFailure(t, results[j])] else [])
  {
    assert results[..j + 1][..j] == results[..j];
  }

  /**
   * Builds the failing-test list as `fileTicket` does: first the set of selected
   * ids, then one entry per stored result whose raw test file is in that set.
   */
  method FilterFailures(t: Task, testIds: seq<string>) returns (tests: seq<TestFailure>)
    ensures tests == Failures(t, set id | id in testIds)
    ensures |tests| <= |t.TestResults|
    ensures forall k :: 0 <= k < |tests| ==> '/' !in tests[k].Name
  {
    var selected: map<string, bool> := map[];
    var i := 0;
    while i < |testIds|
      invariant 0 <= i <= |testIds|
      invariant selected.Keys == set id | id in testIds[..i]
      invariant forall id :: id in selected ==> selected[id]
    {
      assert testIds[..i + 1] == testIds[..i] + [testIds[i]];
      selected := selected[testIds[i] := true];
      i := i + 1;
    }
    assert testIds[..i] == testIds;
    ghost var ids := set id | id in testIds;
    var results := t.TestResults;
    tests := [];
    var j := 0;
    while j < |results|
      invariant 0 <= j <= |results|
      invariant tests == FailuresOf(t, Selected(results[..j], ids))
    {
      var test := results[j];
      FailuresStep(t, results, j, ids);
      if test.TestFile in selected && selected[test.TestFile] {
        var name := CleanTestName(test.TestFile);
        tests := tests + [TestFailure(name, test.URL, HistoryURL(t, name))];
      }
      j := j + 1;
    }
    assert results[..j] == results;
  }

  /** `xs` is `ys` with some elements dropped and the rest kept in order. */
  ghost predicate IsSubsequence<T>(xs: seq<T>, ys: seq<T>)
    decreases |ys|
  {
    if ys == [] then xs == []
    else
      (xs != [] && xs[|xs| - 1] == ys[|ys| - 1] && IsSubsequence(xs[..|xs| - 1], ys[..|ys| - 1]))
      || IsSubsequence(xs, ys[..|ys| - 1])
  }

  /** The filter keeps the stored order of the results: its output is a subsequence of them. */
  lemma {:induction false} SelectedIsSubsequence(results: seq<TestResult>, ids: set<string>)
    ensures IsSubsequence(Selected(results, ids), results)
  {
    if results != [] {
      var init := results[..|results| - 1];
      SelectedIsSubsequence(init, ids);
      var sel := Selected(results, ids);
      if results[|results| - 1].TestFile in ids {
        assert sel[..|sel| - 1] == Selected(init, ids);
      } else {
        assert sel == Selected(init, ids);
      }
    }
  }

  /** A result is kept exactly when it is stored in the task and its raw test file is selected. */
  lemma {:induction false} SelectedMembership(results: seq<TestResult>, ids: set<string>, x: TestResult)
    ensures x in Selected(results, ids) <==> x in results && x.TestFile in ids
  {
    if results != [] {
      var init := results[..|results| - 1];
      SelectedMembership(init, ids, x);
      assert results == init + [results[|results| - 1]];
    }
  }

  /** Filtering two stretches of results one after the other is filtering their concatenation. */
  lemma {:induction false} SelectedAppend(a: seq<TestResult>, b: seq<TestResult>, ids: set<string>)
    ensures Selected(a + b, ids) == Selected(a, ids) + Selected(b, ids)
    decreases |b|
  {
    if b == [] {
      assert a + b == a;
    } else {
      var b' := b[..|b| - 1];
      SelectedAppend(a, b', ids);
      assert (a + b)[..|a + b| - 1] == a + b';
    }
  }

  /** Only which stored test files are selected matters, not the rest of the selection. */
  lemma {:induction false} SelectedDependsOnStoredFiles(results: seq<TestResult>, ids: set<string>, ids': set<string>)
    requires forall r :: r in results ==> (r.TestFile in ids <==> r.TestFile in ids')
    ensures Selected(results, ids) == Selected(results, ids')
  {
    if results != [] {
      var init := results[..|results| - 1];
      assert forall r :: r in init ==> r in results;
      SelectedDependsOnStoredFiles(init, ids, ids');
    }
  }

  /** Selected ids that name no stored result are ignored. */
  lemma SelectedIgnoresAbsentIds(results: seq<TestResult>, ids: set<string>, absent: set<string>)
    requires forall r :: r in results ==> r.TestFile !in absent
    ensures Selected(results, ids + absent) == Selected(results, ids)
  {
  }

  /** Selecting every stored test file keeps every result. */
  lemma {:induction false} SelectedAll(results: seq<TestResult>, ids: set<string>)
    requires forall r :: r in results ==> r.TestFile in ids
    ensures Selected(results, ids) == results
  {
    if results != [] {
      var init, last := results[..|results| - 1], results[|results| - 1];
      assert forall r :: r in init ==> r in results;
      SelectedAll(init, ids);
      assert last in results;
      assert init + [last] == results;
    }
  }
}
