/** `getDescription`: the Jira-markup body of the ticket (tickets.go). */
module TicketDescription {
  import opened Types

  /** The heading: the task and build variant, linked to the task page. */
  function Header(t: Task): string
  {
    "\nh2. [" + t.DisplayName + " failed on " + t.BuildVariant + "|" + UIRoot + "/task/" + t.Id + "]\n\n"
  }

  /** The lines for one failing test: its bold name, its log link and its history link. */
  function Block(f: TestFailure): string
  {
    "*" + f.Name + "* - [Logs|" + f.URL + "] | [History|" + f.HistoryURL + "]\n\n"
  }

  /** The closing attribution to the user who filed the ticket. */
  function Footer(userId: string): string
  {
    "\n\n\n\n~BF Ticket Generated by [~" + userId + "]~\n"
  }

  /** The texts `render(x)` of the elements `x` of `xs`, one after the other. */
  function ConcatMap<T>(xs: seq<T>, render: T -> string): string
  {
    if xs == [] then ""
    else ConcatMap(xs[..|xs| - 1], render) + render(xs[|xs| - 1])
  }

  /** The blocks of all failing tests, in order. */
  function Blocks(tests: seq<TestFailure>): string
  {
    ConcatMap(tests, Block)
  }

  /** What the description template renders to. */
  function Description(t: Task, userId: string, tests: seq<TestFailure>): (r: string)
    ensures |r| >= |Header(t)| + |Footer(userId)|
    ensures r[..|Header(t)|] == Header(t)
    ensures r[|r| - |Footer(userId)|..] == Footer(userId)
  {
    Header(t) + Blocks(tests) + Footer(userId)
  }

  /**
   * Renders the template into a growing buffer as `getDescription` does: the
   * heading, one block per test, then the attribution.
   */
  method GetDescription(t: Task, userId: string, tests: seq<TestFailure>) returns (r: string)
    ensures r == Description(t, userId, tests)
    ensures r[..|Header(t)|] == Header(t)
  {
    var buf := Header(t);
    for i := 0 to |tests|
      invariant buf == Header(t) + Blocks(tests[..i])
    {
      assert tests[..i + 1][..i] == tests[..i];
      buf := buf + Block(tests[i]);
    }
    assert tests[..|tests|] == tests;
    buf := buf + Footer(userId);
    r := buf;
  }

  /** Rendering two runs of elements one after the other is rendering their concatenation. */
  lemma {:induction false} ConcatMapAppend<T>(a: seq<T>, b: seq<T>, render: T -> string)
    ensures ConcatMap(a + b, render) == ConcatMap(a, render) + ConcatMap(b, render)
    decreases |b|
  {
    if b == [] {
      assert a + b == a;
    } else {
      var b' := b[..|b| - 1];
      ConcatMapAppend(a, b', render);
      assert (a + b)[..|a + b| - 1] == a + b';
    }
  }

  /** With no failing tests the description is the heading followed by the attribution. */
  lemma DescriptionWithoutTests(t: Task, userId: string)
    ensures Description(t, userId, []) == Header(t) + Footer(userId)
  {
  }

  /** The text of the `k`-th element sits right after the texts of the elements before it. */
  lemma ConcatMapPosition<T>(xs: seq<T>, render: T -> string, k: nat)
    requires k < |xs|
    ensures var off := |ConcatMap(xs[..k], render)|;
      var s := ConcatMap(xs, render);
      off + |render(xs[k])| <= |s| && s[off..off + |render(xs[k])|] == render(xs[k])
  {
    var before, here, after := xs[..k], xs[k], xs[k + 1..];
    assert xs == before + [here] + after;
    ConcatMapAppend(before + [here], after, render);
    ConcatMapAppend(before, [here], render);
    assert ConcatMap([here], render) == render(here) by { assert [here][..0] == []; }
    SliceOfConcat(ConcatMap(before, render), render(here), ConcatMap(after, render));
  }

  /** The middle piece of a three-part concatenation. */
  lemma SliceOfConcat(pre: string, mid: string, post: string)
    ensures (pre + mid + post)[|pre|..|pre| + |mid|] == mid
  {
  }

  /**
   * The block of the `k`-th test sits right after the heading and the blocks of
   * the tests before it: the tests appear one block each, in input order.
   */
  lemma BlockPosition(t: Task, userId: string, tests: seq<TestFailure>, k: nat)
    requires k < |tests|
    ensures var off := |Header(t)| + |Blocks(tests[..k])|;
      var d := Description(t, userId, tests);
      off + |Block(tests[k])| <= |d| && d[off..off + |Block(tests[k])|] == Block(tests[k])
  {
    assert Description(t, userId, tests) == Header(t) + ConcatMap(tests, Block) + Footer(userId);
    assert Blocks(tests[..k]) == ConcatMap(tests[..k], Block);
    FramedPosition(Header(t), Footer(userId), tests, Block, k);
  }

  /** The `k`-th text inside a frame `header + texts + footer` is found after the earlier texts. */
  lemma FramedPosition<T>(header: string, footer: string, xs: seq<T>, render: T -> string, k: nat)
    requires k < |xs|
    ensures var off := |header| + |ConcatMap(xs[..k], render)|;
      var s := header + ConcatMap(xs, render) + footer;
      off + |render(xs[k])| <= |s| && s[off..off + |render(xs[k])|] == render(xs[k])
  {
    ConcatMapPosition(xs, render, k);
    ShiftSlice(header, ConcatMap(xs, render), footer, |ConcatMap(xs[..k], render)|, |render(xs[k])|);
  }

  /** A slice of the middle piece, seen in the whole concatenation. */
  lemma ShiftSlice(pre: string, mid: string, post: string, off: nat, len: nat)
    requires off + len <= |mid|
    ensures (pre + mid + post)[|pre| + off..|pre| + off + len] == mid[off..off + len]
  {
  }
}
