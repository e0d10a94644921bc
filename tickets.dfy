/** `fileTicket`: assembling the Jira request from a task and a test selection (tickets.go). */
module Tickets {
  import opened Types
  import opened TestNames
  import opened FailureList
  import opened TicketSummary
  import opened TicketDescription

  /**
   * The fields of the "Build Failure" issue that is submitted to Jira.
   * `FailingTasks` is the value of the custom field "customfield_12950".
   */
  datatype TicketRequest = TicketRequest(
    ProjectKey: string,
    Summary: string,
    FailingTasks: seq<string>,
    IssueType: string,
    Assignee: string,
    Reporter: string,
    Description: string)

  /** What the task lookup yields: a lookup error, no task, or the task. */
  datatype Lookup = LookupError(err: string) | NotFound | Found(task: Task)

  /** What the ticket-creation call yields. */
  datatype CreateResult = Created(key: string) | CreateError(err: string)

  /** How one ticket-filing request ends, in the order the checks are made. */
  datatype Outcome =
    | NotLoggedIn
    | LookupFailed(err: string)
    | TaskNotFound(taskId: string)
    | CreateFailed(err: string)
    | TicketCreated(key: string)

  /** The request for task `t`, filed by `userId`, listing `tests`. */
  function BuildRequest(t: Task, userId: string, tests: seq<TestFailure>): (r: TicketRequest)
    ensures r.ProjectKey == "BF" && r.IssueType == "Build Failure"
    ensures r.FailingTasks == [t.DisplayName]
    ensures r.Assignee == userId && r.Reporter == userId
    ensures r.Summary == Summary(t.DisplayName, tests)
    ensures r.Description == Description(t, userId, tests)
    ensures r.Description[|r.Description| - |Footer(userId)|..] == Footer(userId)
  {
    TicketRequest(
      ProjectKey := "BF",
      Summary := Summary(t.DisplayName, tests),
      FailingTasks := [t.DisplayName],
      IssueType := "Build Failure",
      Assignee := userId,
      Reporter := userId,
      Description := Description(t, userId, tests))
  }

  /**
   * Files a ticket as `fileTicket` does once the request body is decoded: the
   * user must be logged in, the lookup must find the task, and only then is the
   * failure list built, the title and description rendered, and the request
   * handed to `createTicket`. `submitted` lists the requests handed over: none
   * on the early exits, exactly one otherwise.
   */
  method FileTicket(
    user: Option<string>,
    taskId: string,
    lookup: Lookup,
    testIds: seq<string>,
    createTicket: TicketRequest -> CreateResult)
    returns (o: Outcome, submitted: seq<TicketRequest>)
    ensures user.None? ==> o == NotLoggedIn && submitted == []
    ensures user.Some? && lookup.LookupError? ==> o == LookupFailed(lookup.err) && submitted == []
    ensures user.Some? && lookup.NotFound? ==> o == TaskNotFound(taskId) && submitted == []
    ensures user.Some? && lookup.Found? ==>
      && submitted == [BuildRequest(lookup.task, user.value, Failures(lookup.task, set id | id in testIds))]
      && match createTicket(submitted[0])
         case Created(key) => o == TicketCreated(key)
         case CreateError(err) => o == CreateFailed(err)
  {
    submitted := [];
    if user.None? {
      return NotLoggedIn, submitted;
    }
    var u := user.value;
    if lookup.LookupError? {
      return LookupFailed(lookup.err), submitted;
    }
    if lookup.NotFound? {
      return TaskNotFound(taskId), submitted;
    }
    var t := lookup.task;
    var tests := FilterFailures(t, testIds);
    var summary := GetSummary(t.DisplayName, tests);
    var description := GetDescription(t, u, tests);
    var request := TicketRequest(
      ProjectKey := "BF",
      Summary := summary,
      FailingTasks := [t.DisplayName],
      IssueType := "Build Failure",
      Assignee := u,
      Reporter := u,
      Description := description);
    submitted := submitted + [request];
    match createTicket(request)
    case Created(key) => o := TicketCreated(key);
    case CreateError(err) => o := CreateFailed(err);
  }

  /**
   * The title and the description describe the same failures: the description
   * holds each test's block in order, and for one to four comma-free names the
   * title lists exactly those names.
   */
  lemma RequestDescribesFailures(t: Task, userId: string, tests: seq<TestFailure>, k: nat)
    requires k < |tests|
    ensures var req := BuildRequest(t, userId, tests);
      var off := |Header(t)| + |Blocks(tests[..k])|;
      off + |Block(tests[k])| <= |req.Description|
      && req.Description[off..off + |Block(tests[k])|] == Block(tests[k])
    ensures (|tests| <= 4 && forall j :: 0 <= j < |tests| ==> ',' !in tests[j].Name) ==>
      var names := SplitNames(BuildRequest(t, userId, tests).Summary);
      |names| == |tests| && names[k] == tests[k].Name
  {
    BlockPosition(t, userId, tests, k);
    if |tests| <= 4 && forall j :: 0 <= j < |tests| ==> ',' !in tests[j].Name {
      SummaryListsNames(t.DisplayName, tests);
    }
  }

  /**
   * Task "T" of project "P" with results "dir/foo.js" and "bar.js", both
   * selected: two entries in stored order, titled "foo.js, bar.js".
   */
  lemma EndToEndExample()
    ensures var t := Task("123", "T", "V", "P", [TestResult("dir/foo.js", "u1"), TestResult("bar.js", "u2")]);
      var tests := Failures(t, {"bar.js", "dir/foo.js"});
      && tests == [
        TestFailure("foo.js", "u1", UIRoot + "/task_history/P/T#foo.js=fail"),
        TestFailure("bar.js", "u2", UIRoot + "/task_history/P/T#bar.js=fail")]
      && Summary(t.DisplayName, tests) == "foo.js, bar.js"
  {
    var t := Task("123", "T", "V", "P", [TestResult("dir/foo.js", "u1"), TestResult("bar.js", "u2")]);
    var ids := {"bar.js", "dir/foo.js"};
    ExampleSelection(t, ids);
    ExampleEntries(t);
    ExampleSummary(Failures(t, ids));
  }

  /** Both results of the worked example are selected, in stored order. */
  lemma ExampleSelection(t: Task, ids: set<string>)
    requires |t.TestResults| == 2
    requires t.TestResults[0].TestFile in ids && t.TestResults[1].TestFile in ids
    ensures Failures(t, ids) == [ToFailure(t, t.TestResults[0]), ToFailure(t, t.TestResults[1])]
  {
    SelectedAll(t.TestResults, ids);
  }

  /** The two entries of the worked example, written out. */
  lemma ExampleEntries(t: Task)
    requires t.Project == "P" && t.DisplayName == "T"
    ensures ToFailure(t, TestResult("dir/foo.js", "u1"))
      == TestFailure("foo.js", "u1", UIRoot + "/task_history/P/T#foo.js=fail")
    ensures ToFailure(t, TestResult("bar.js", "u2"))
      == TestFailure("bar.js", "u2", UIRoot + "/task_history/P/T#bar.js=fail")
  {
    ExampleNames();
    ExampleHistoryURLs(t);
  }

  /** Two entries named foo.js and bar.js give the title "foo.js, bar.js". */
  lemma ExampleSummary(tests: seq<TestFailure>)
    requires |tests| == 2 && tests[0].Name == "foo.js" && tests[1].Name == "bar.js"
    ensures Summary("T", tests) == "foo.js, bar.js"
  {
    assert Names(tests) == ["foo.js", "bar.js"];
    assert ["foo.js", "bar.js"][1..] == ["bar.js"];
  }

  /** The history links of the worked example, written out. */
  lemma ExampleHistoryURLs(t: Task)
    requires t.Project == "P" && t.DisplayName == "T"
    ensures HistoryURL(t, "foo.js") == UIRoot + "/task_history/P/T#foo.js=fail"
    ensures HistoryURL(t, "bar.js") == UIRoot + "/task_history/P/T#bar.js=fail"
  {
  }

  /** The display names of the two results of the worked example. */
  lemma ExampleNames()
    ensures CleanTestName("dir/foo.js") == "foo.js"
    ensures CleanTestName("bar.js") == "bar.js"
  {
    assert CleanTestName("dir/foo.js") == "foo.js" by {
      assert "dir/foo.js" == "dir" + ['/'] + "foo.js";
      CleanTestNameAfterLastSlash("dir", "foo.js");
    }
    assert CleanTestName("bar.js") == "bar.js" by {
      CleanTestNameOfPlainName("bar.js");
    }
  }
}
