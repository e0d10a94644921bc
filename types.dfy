/** Records the ticket pipeline reads and produces (tickets.go). */
module Types {

  /** Base of every link the ticket contains. */
  const UIRoot: string := "https://evergreen.mongodb.com"

  /** One recorded test result of a task: its raw test file path and its log URL. */
  datatype TestResult = TestResult(TestFile: string, URL: string)

  /** The task record the lookup yields; the pipeline only reads it. */
  datatype Task = Task(
    Id: string,
    DisplayName: string,
    BuildVariant: string,
    Project: string,
    TestResults: seq<TestResult>)

  /** One failing test as it appears in the ticket (`jiraTestFailure`). */
  datatype TestFailure = TestFailure(Name: string, URL: string, HistoryURL: string)

  datatype Option<T> = None | Some(value: T)
}
