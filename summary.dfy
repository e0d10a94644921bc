/** `getSummary`: the ticket title (tickets.go). */
module TicketSummary {
  import opened Types

  /** `strings.Join`: the elements separated by `sep`. */
  function Join(names: seq<string>, sep: string): (r: string)
    ensures |names| == 0 ==> r == ""
    ensures |names| == 1 ==> r == names[0]
    ensures |names| >= 1 ==> |names[0]| <= |r| && r[..|names[0]|] == names[0]
  {
    if |names| == 0 then ""
    else if |names| == 1 then names[0]
    else names[0] + sep + Join(names[1..], sep)
  }

  /** The display names of the failures, in order. */
  function Names(tests: seq<TestFailure>): (r: seq<string>)
    ensures |r| == |tests|
    ensures forall k :: 0 <= k < |tests| ==> r[k] == tests[k].Name
  {
    seq(|tests|, k requires 0 <= k < |tests| => tests[k].Name)
  }

  /**
   * The title rule: no failures reads as a failure of the task itself, more
   * than four collapse to a plural, otherwise the names are listed.
   */
  function Summary(taskName: string, tests: seq<TestFailure>): (r: string)
    ensures |tests| == 0 ==> r == taskName + " failure"
    ensures |tests| > 4 ==> r == taskName + " failures"
    ensures |tests| == 1 ==> r == tests[0].Name
    ensures 1 <= |tests| <= 4 ==> |tests[0].Name| <= |r| && r[..|tests[0].Name|] == tests[0].Name
  {
    if |tests| == 0 then taskName + " failure"
    else if |tests| > 4 then taskName + " failures"
    else Join(Names(tests), ", ")
  }

  /** Builds the title as `getSummary` does, collecting the names in a loop. */
  method GetSummary(taskName: string, tests: seq<TestFailure>) returns (s: string)
    ensures s == Summary(taskName, tests)
    ensures |tests| == 1 ==> s == tests[0].Name
  {
    if |tests| == 0 {
      return taskName + " failure";
    } else if |tests| > 4 {
      return taskName + " failures";
    }
    var names: seq<string> := [];
    for i := 0 to |tests|
      invariant |names| == i
      invariant forall k :: 0 <= k < i ==> names[k] == tests[k].Name
    {
      names := names + [tests[i].Name];
    }
    assert names == Names(tests);
    s := Join(names, ", ");
  }

  /** Position of the first ", " in `s`, or `|s|` when there is none. */
  function FirstSeparator(s: string): (i: nat)
    ensures i <= |s|
    ensures i < |s| ==> i + 1 < |s| && s[i] == ',' && s[i + 1] == ' '
  {
    if |s| < 2 then |s|
    else if s[0] == ',' && s[1] == ' ' then 0
    else 1 + FirstSeparator(s[1..])
  }

  /** Cuts a title at every ", ": the inverse of `Join(_, ", ")` on comma-free names. */
  function SplitNames(s: string): (r: seq<string>)
    ensures |r| >= 1
    decreases |s|
  {
    var i := FirstSeparator(s);
    if i == |s| then [s] else [s[..i]] + SplitNames(s[i + 2..])
  }

  /** The first ", " of `x + ", " + y` is right after `x` when `x` has no comma. */
  lemma {:induction false} FirstSeparatorAfter(x: string, y: string)
    requires ',' !in x
    ensures FirstSeparator(x + ", " + y) == |x|
  {
    if x != [] {
      assert (x + ", " + y)[1..] == x[1..] + ", " + y;
      FirstSeparatorAfter(x[1..], y);
    }
  }

  /** A string with no comma has no separator. */
  lemma {:induction false} FirstSeparatorNone(x: string)
    requires ',' !in x
    ensures FirstSeparator(x) == |x|
  {
  }

  /** Joining comma-free names with ", " and cutting the result again gives back the names. */
  lemma {:induction false} SplitJoin(names: seq<string>)
    requires |names| >= 1
    requires forall k :: 0 <= k < |names| ==> ',' !in names[k]
    ensures SplitNames(Join(names, ", ")) == names
  {
    if |names| == 1 {
      FirstSeparatorNone(names[0]);
    } else {
      var x, rest := names[0], Join(names[1..], ", ");
      var s := x + ", " + rest;
      assert Join(names, ", ") == s;
      FirstSeparatorAfter(x, rest);
      assert s[..|x|] == x;
      assert s[|x| + 2..] == rest;
      assert SplitNames(s) == [x] + SplitNames(rest);
      SplitJoin(names[1..]);
      assert names == [x] + names[1..];
    }
  }

  /**
   * For one to four failures with comma-free names the title lists exactly
   * those names in order; otherwise it names the task.
   */
  lemma SummaryListsNames(taskName: string, tests: seq<TestFailure>)
    requires 1 <= |tests| <= 4
    requires forall k :: 0 <= k < |tests| ==> ',' !in tests[k].Name
    ensures SplitNames(Summary(taskName, tests)) == Names(tests)
  {
    SplitJoin(Names(tests));
  }

  /** The worked titles: "T failure", "T failures", and "x, y". */
  lemma SummaryExamples(t: TestFailure, x: TestFailure, y: TestFailure)
    requires x.Name == "x" && y.Name == "y"
    ensures Summary("T", []) == "T failure"
    ensures Summary("T", [t, t, t, t, t]) == "T failures"
    ensures Summary("T", [x, y]) == "x, y"
    ensures Summary("T", [x]) == "x"
  {
    assert Names([x, y]) == ["x", "y"];
    assert Names([x]) == ["x"];
    assert ["x", "y"][1..] == ["y"];
  }
}
