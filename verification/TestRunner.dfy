/** The test harness: contexts gather failed expectations, the runner steps through the
    registered tests, and the generated loop drives both. */
module Testing {

  /** An expectation of a test, evaluated: ExpectTrue and its kin differ in the message only. */
  datatype Check = Check(holds: bool, msg: string)

  /** The messages of the expectations that do not hold, in order. */
  function Failures(checks: seq<Check>): seq<string> {
    if checks == [] then []
    else (if checks[0].holds then [] else [checks[0].msg]) + Failures(checks[1..])
  }

  lemma {:induction false} PassesIff(checks: seq<Check>)
    ensures Failures(checks) == [] <==> forall k :: 0 <= k < |checks| ==> checks[k].holds
  {
    if checks != [] {
      PassesIff(checks[1..]);
      assert checks == [checks[0]] + checks[1..];
    }
  }

  lemma {:induction false} FailuresPlus(a: seq<Check>, c: seq<Check>)
    ensures Failures(a + c) == Failures(a) + Failures(c)
  {
    if a == [] {
      assert a + c == c;
    } else {
      assert (a + c)[1..] == a[1..] + c;
      FailuresPlus(a[1..], c);
    }
  }

  /** Each check adds its own message if it does not hold, in its own place. */
  lemma FailuresAt(a: seq<Check>, c: Check, d: seq<Check>)
    ensures Failures(a + [c] + d) == Failures(a) + (if c.holds then [] else [c.msg]) + Failures(d)
  {
    FailuresPlus(a + [c], d);
    FailuresPlus(a, [c]);
    assert [c][1..] == [];
  }

  class TestContext {
    const name: string
    var failures: seq<string>

    constructor (name: string)
      ensures this.name == name && failures == []
    {
      this.name := name;
      failures := [];
    }

    predicate Passed()
      reads this
    {
      failures == []
    }

    method Expect(ok: bool, msg: string)
      modifies this
      ensures failures == old(failures) + if ok then [] else [msg]
    {
      if !ok {
        failures := failures + [msg];
      }
    }
  }

  function CountTrue(bs: seq<bool>): (n: nat)
    ensures n <= |bs|
  {
    if bs == [] then 0 else CountTrue(bs[..|bs| - 1]) + if bs[|bs| - 1] then 1 else 0
  }

  /** The indices of what is true. */
  function TrueAt(bs: seq<bool>): set<nat> {
    set k | 0 <= k < |bs| && bs[k]
  }

  lemma {:induction false} CountIsCardinality(bs: seq<bool>)
    ensures CountTrue(bs) == |TrueAt(bs)|
  {
    if bs != [] {
      var n := |bs| - 1;
      CountIsCardinality(bs[..n]);
      assert TrueAt(bs) == TrueAt(bs[..n]) + if bs[n] then {n} else {};
    }
  }

  lemma {:induction false} CountsAllIff(bs: seq<bool>)
    ensures CountTrue(bs) == |bs| <==> forall k :: 0 <= k < |bs| ==> bs[k]
  {
    if bs != [] {
      CountsAllIff(bs[..|bs| - 1]);
      assert bs == bs[..|bs| - 1] + [bs[|bs| - 1]];
    }
  }

  /** The lines of the summary, without their wording. */
  datatype Line = TestPassed(name: string) | TestFailed(name: string) | Because(msg: string)
                | PassedTotal(count: int) | FailedTotal(count: int) | Ran(count: int)

  function Reasons(msgs: seq<string>): seq<Line> {
    if msgs == [] then [] else [Because(msgs[0])] + Reasons(msgs[1..])
  }

  /** The lines of one test. */
  function OfTest(name: string, msgs: seq<string>): seq<Line> {
    if msgs == [] then [TestPassed(name)] else [TestFailed(name)] + Reasons(msgs)
  }

  /** The summary's account of the first n tests. */
  function Account(names: seq<string>, failed: seq<seq<string>>, n: nat): seq<Line>
    requires n <= |names| && n <= |failed|
  {
    if n == 0 then [] else Account(names, failed, n - 1) + OfTest(names[n - 1], failed[n - 1])
  }

  lemma AccountNext(names: seq<string>, failed: seq<seq<string>>, n: nat)
    requires n < |names| && n < |failed|
    ensures Account(names, failed, n + 1) == Account(names, failed, n) + OfTest(names[n], failed[n])
  {
  }

  class TestRunner {
    const suiteName: string
    var testNames: seq<string>
    var results: seq<bool>
    var failureMsgs: seq<seq<string>>
    var currentIdx: nat

    constructor (suiteName: string)
      ensures Valid() && this.suiteName == suiteName
      ensures testNames == [] && currentIdx == 0
    {
      this.suiteName := suiteName;
      testNames, results, failureMsgs, currentIdx := [], [], [], 0;
    }

    /** Every test ended so far has its result and its messages, and they agree. */
    ghost predicate Valid()
      reads this
    {
      && |results| == |failureMsgs| == currentIdx
      && forall k :: 0 <= k < currentIdx ==> (results[k] <==> failureMsgs[k] == [])
    }

    function Total(): nat
      reads this
    {
      |testNames|
    }

    predicate HasNext()
      reads this
    {
      currentIdx < Total()
    }

    function CurrentName(): string
      reads this
    {
      if currentIdx < Total() then testNames[currentIdx] else ""
    }

    method Register(name: string)
      requires Valid()
      modifies this
      ensures Valid()
      ensures testNames == old(testNames) + [name]
      ensures results == old(results) && failureMsgs == old(failureMsgs) && currentIdx == old(currentIdx)
    {
      testNames := testNames + [name];
    }

    method BeginCurrent() returns (ctx: TestContext)
      ensures fresh(ctx) && ctx.name == CurrentName() && ctx.failures == []
    {
      ctx := new TestContext(CurrentName());
    }

    method EndCurrent(ctx: TestContext)
      requires Valid()
      modifies this
      ensures Valid() && testNames == old(testNames)
      ensures currentIdx == old(currentIdx) + 1
      ensures failureMsgs == old(failureMsgs) + [ctx.failures]
      ensures results == old(results) + [ctx.failures == []]
    {
      var ok := ctx.Passed();
      results := results + [ok];
      failureMsgs := failureMsgs + [ctx.failures];
      currentIdx := currentIdx + 1;
    }

    method Passed() returns (n: nat)
      ensures n == CountTrue(results) == |TrueAt(results)|
    {
      CountIsCardinality(results);
      n := 0;
      for k := 0 to |results|
        invariant n == CountTrue(results[..k])
      {
        assert results[..k + 1][..k] == results[..k];
        if results[k] {
          n := n + 1;
        }
      }
      assert results[..|results|] == results;
    }

    /** Tests without a result count as failed, and results beyond the tests against it. */
    method Failed() returns (n: int)
      ensures n == Total() - CountTrue(results)
      ensures Valid() && currentIdx <= Total() ==> n >= 0
      ensures Valid() && currentIdx == Total() ==> (n == 0 <==> forall k :: 0 <= k < Total() ==> failureMsgs[k] == [])
    {
      var p := Passed();
      n := Total() - p;
      CountsAllIff(results);
    }

    /** print_summary indexes the results by test: it needs a result for every test. */
    method Summary() returns (lines: seq<Line>)
      requires Valid() && !HasNext()
      ensures var p := CountTrue(results);
        lines == Account(testNames, failureMsgs, Total())
                 + (if p > 0 then [PassedTotal(p)] else [])
                 + (if Total() - p > 0 then [FailedTotal(Total() - p)] else [])
                 + [Ran(Total())]
    {
      hide Account, OfTest, CountTrue, TrueAt;
      NoLines(testNames, failureMsgs);
      lines := [];
      for n := 0 to |testNames|
        invariant lines == Account(testNames, failureMsgs, n)
      {
        AccountNext(testNames, failureMsgs, n);
        var told := TellTest(results[n], testNames[n], failureMsgs[n]);
        lines := lines + told;
      }
      var p := Passed();
      if p > 0 {
        lines := lines + [PassedTotal(p)];
      }
      var f := Failed();
      if f > 0 {
        lines := lines + [FailedTotal(f)];
      }
      lines := lines + [Ran(|testNames|)];
    }
  }

  /** One turn of the summary's loop. */
  method TellTest(passed: bool, name: string, msgs: seq<string>) returns (lines: seq<Line>)
    requires passed <==> msgs == []
    ensures lines == OfTest(name, msgs)
  {
    if passed {
      lines := [TestPassed(name)];
    } else {
      var because := AllReasons(msgs);
      lines := [TestFailed(name)] + because;
    }
  }

  method AllReasons(msgs: seq<string>) returns (lines: seq<Line>)
    ensures lines == Reasons(msgs)
  {
    lines := [];
    for k := 0 to |msgs|
      invariant lines == Reasons(msgs[..k])
    {
      ReasonsSnoc(msgs[..k], msgs[k]);
      assert msgs[..k + 1] == msgs[..k] + [msgs[k]];
      lines := lines + [Because(msgs[k])];
    }
    assert msgs[..|msgs|] == msgs;
  }

  lemma {:induction false} ReasonsSnoc(msgs: seq<string>, msg: string)
    ensures Reasons(msgs + [msg]) == Reasons(msgs) + [Because(msg)]
  {
    if msgs == [] {
      assert msgs + [msg] == [msg];
    } else {
      assert (msgs + [msg])[1..] == msgs[1..] + [msg];
      ReasonsSnoc(msgs[1..], msg);
    }
  }

  // ---------------------------------------------------------------------------
  // The generated harness
  // ---------------------------------------------------------------------------

  /** The user's states, over the variables E that they share. A body and the teardown
      after it make expectations on the test's context. */
  datatype Suite<!E> = Suite(setup: E -> E, body: (string, E) -> (seq<Check>, E), teardown: (string, E) -> (seq<Check>, E))
  {
    /** One turn of the harness loop: what the test expects, and what it leaves behind. */
    function Play(name: string, env: E): (seq<Check>, E) {
      var (own, env1) := body(name, setup(env));
      var (last, env2) := teardown(name, env1);
      (own + last, env2)
    }

    /** The failures of each test, when the tests run one after the other from env. */
    function Verdicts(names: seq<string>, env: E): (v: seq<seq<string>>)
      ensures |v| == |names|
    {
      if names == [] then []
      else
        var (checks, env1) := Play(names[0], env);
        [Failures(checks)] + Verdicts(names[1..], env1)
    }
  }

  lemma PlayIs<E>(suite: Suite<E>, name: string, env: E)
    ensures var (own, env1) := suite.body(name, suite.setup(env)); var (last, env2) := suite.teardown(name, env1);
      suite.Play(name, env).1 == env2 && Failures(suite.Play(name, env).0) == Failures(own) + Failures(last)
  {
    var (own, env1) := suite.body(name, suite.setup(env));
    FailuresPlus(own, suite.teardown(name, env1).0);
  }

  /** The states between the tests: each test runs on what setup makes of the state before it,
      its teardown runs on what the test leaves, counts towards the test, and leaves the state
      for the next. */
  lemma {:induction false} TeardownCounts<E>(suite: Suite<E>, names: seq<string>, start: E) returns (envs: seq<E>)
    ensures |envs| == |names| + 1 && envs[0] == start
    ensures forall k :: 0 <= k < |names| ==>
              var (own, env1) := suite.body(names[k], suite.setup(envs[k])); var (last, env2) := suite.teardown(names[k], env1);
              envs[k + 1] == env2 && suite.Verdicts(names, start)[k] == Failures(own) + Failures(last)
  {
    hide Suite.Play, Failures;
    if names == [] {
      envs := [start];
    } else {
      PlayIs(suite, names[0], start);
      var rest := TeardownCounts(suite, names[1..], suite.Play(names[0], start).1);
      envs := [start] + rest;
    }
  }

  lemma VerdictsFrom<E>(suite: Suite<E>, names: seq<string>, k: nat, env: E)
    requires k < |names|
    ensures var (checks, env1) := suite.Play(names[k], env);
      suite.Verdicts(names[k..], env) == [Failures(checks)] + suite.Verdicts(names[k + 1..], env1)
  {
    assert names[k..][1..] == names[k + 1..];
  }

  method MakeAll(ctx: TestContext, checks: seq<Check>)
    modifies ctx
    ensures ctx.failures == old(ctx.failures) + Failures(checks)
  {
    for k := 0 to |checks|
      invariant ctx.failures == old(ctx.failures) + Failures(checks[..k])
    {
      FailuresPlus(checks[..k], [checks[k]]);
      assert checks[..k + 1] == checks[..k] + [checks[k]];
      ctx.Expect(checks[k].holds, checks[k].msg);
    }
    assert checks[..|checks|] == checks;
  }

  /** setup, __begin, __dispatch, teardown and __end for the test whose turn it is. */
  method RunCurrent<E>(runner: TestRunner, suite: Suite<E>, env: E) returns (next: E, ghost played: string)
    requires runner.Valid() && runner.HasNext()
    modifies runner
    ensures runner.Valid() && runner.testNames == old(runner.testNames)
    ensures runner.currentIdx == old(runner.currentIdx) + 1
    ensures played == old(runner.testNames[runner.currentIdx])
    ensures var (own, env1) := suite.body(played, suite.setup(env)); var (last, env2) := suite.teardown(played, env1);
      next == env2 && runner.failureMsgs == old(runner.failureMsgs) + [Failures(own) + Failures(last)]
  {
    var ready := suite.setup(env);
    var ctx := runner.BeginCurrent();
    played := ctx.name;
    var (own, env1) := suite.body(ctx.name, ready);
    MakeAll(ctx, own);
    var (last, env2) := suite.teardown(ctx.name, env1);
    MakeAll(ctx, last);
    assert [] + Failures(own) == Failures(own);
    next := env2;
    runner.EndCurrent(ctx);
  }

  /** __init. */
  method Init(suiteName: string, names: seq<string>) returns (runner: TestRunner)
    ensures fresh(runner) && runner.Valid() && runner.testNames == names && runner.currentIdx == 0
  {
    runner := new TestRunner(suiteName);
    for k := 0 to |names|
      invariant fresh(runner) && runner.Valid() && runner.currentIdx == 0
      invariant runner.testNames == names[..k]
    {
      runner.Register(names[k]);
    }
  }

  /** __loop, until there is no next test. played records the tests dispatched, in order. */
  method Loop<E>(runner: TestRunner, suite: Suite<E>, start: E) returns (ghost played: seq<string>)
    requires runner.Valid() && runner.currentIdx == 0
    modifies runner
    ensures runner.Valid() && runner.testNames == old(runner.testNames) && runner.currentIdx == runner.Total()
    ensures played == runner.testNames
    ensures runner.failureMsgs == suite.Verdicts(runner.testNames, start)
  {
    hide Suite.Verdicts, Suite.Play, Failures;
    var env := start;
    ghost var names := runner.testNames;
    played := [];
    while runner.HasNext()
      invariant runner.Valid() && runner.testNames == names
      invariant runner.currentIdx <= |names| && played == names[..runner.currentIdx]
      invariant runner.failureMsgs + suite.Verdicts(names[runner.currentIdx..], env) == suite.Verdicts(names, start)
      decreases |names| - runner.currentIdx
    {
      VerdictsFrom(suite, names, runner.currentIdx, env);
      ghost var name;
      PlayIs(suite, names[runner.currentIdx], env);
      env, name := RunCurrent(runner, suite, env);
      played := played + [name];
    }
  }

  /** The harness from __init to __finish. */
  method RunSuite<E>(suiteName: string, names: seq<string>, suite: Suite<E>, start: E)
    returns (runner: TestRunner, summary: seq<Line>, passed: nat, failed: int, ghost played: seq<string>)
    ensures fresh(runner) && runner.Valid() && runner.testNames == names
    ensures played == names && runner.currentIdx == |names|
    ensures runner.failureMsgs == suite.Verdicts(names, start)
    ensures passed + failed == |names|
    ensures passed == |set k | 0 <= k < |names| && suite.Verdicts(names, start)[k] == []|
    ensures failed >= 0 && (failed == 0 <==> forall k :: 0 <= k < |names| ==> suite.Verdicts(names, start)[k] == [])
    ensures summary == Account(names, suite.Verdicts(names, start), |names|)
                       + (if passed > 0 then [PassedTotal(passed)] else [])
                       + (if failed > 0 then [FailedTotal(failed)] else [])
                       + [Ran(|names|)]
  {
    hide Suite.Verdicts, Account, CountTrue;
    runner := Init(suiteName, names);
    played := Loop(runner, suite, start);
    summary := runner.Summary();
    passed := runner.Passed();
    failed := runner.Failed();
    assert TrueAt(runner.results) == set k | 0 <= k < |names| && suite.Verdicts(names, start)[k] == [];
  }

  /** With a setup that resets every shared variable, a test's failures depend on the test
      alone, whatever ran before it. */
  lemma {:induction false} ResettingSetupIsolates<E(!new)>(suite: Suite<E>, names: seq<string>, env: E, other: E, k: nat)
    requires forall e, e' :: suite.setup(e) == suite.setup(e')
    requires k < |names|
    ensures suite.Verdicts(names, env)[k] == Failures(suite.Play(names[k], other).0)
    decreases names
  {
    assert suite.setup(env) == suite.setup(other);
    if k > 0 {
      ResettingSetupIsolates(suite, names[1..], suite.Play(names[0], env).1, other, k - 1);
    }
  }

  /** The lines that name a test, and the reasons given. */
  function TestLines(lines: seq<Line>): seq<Line> {
    if lines == [] then []
    else (if lines[0].TestPassed? || lines[0].TestFailed? then [lines[0]] else []) + TestLines(lines[1..])
  }

  function ReasonLines(lines: seq<Line>): seq<string> {
    if lines == [] then []
    else (if lines[0].Because? then [lines[0].msg] else []) + ReasonLines(lines[1..])
  }

  function Flatten(failed: seq<seq<string>>): seq<string> {
    if failed == [] then [] else Flatten(failed[..|failed| - 1]) + failed[|failed| - 1]
  }

  lemma {:induction false} TestLinesPlus(a: seq<Line>, c: seq<Line>)
    ensures TestLines(a + c) == TestLines(a) + TestLines(c)
  {
    if a == [] {
      assert a + c == c;
    } else {
      assert (a + c)[1..] == a[1..] + c && (a + c)[0] == a[0];
      TestLinesPlus(a[1..], c);
      var head := if a[0].TestPassed? || a[0].TestFailed? then [a[0]] else [];
      assert head + (TestLines(a[1..]) + TestLines(c)) == (head + TestLines(a[1..])) + TestLines(c);
    }
  }

  lemma {:induction false} ReasonLinesPlus(a: seq<Line>, c: seq<Line>)
    ensures ReasonLines(a + c) == ReasonLines(a) + ReasonLines(c)
  {
    if a == [] {
      assert a + c == c;
    } else {
      assert (a + c)[1..] == a[1..] + c && (a + c)[0] == a[0];
      ReasonLinesPlus(a[1..], c);
      var head := if a[0].Because? then [a[0].msg] else [];
      assert head + (ReasonLines(a[1..]) + ReasonLines(c)) == (head + ReasonLines(a[1..])) + ReasonLines(c);
    }
  }

  lemma {:induction false} ReasonsAreReasons(msgs: seq<string>)
    ensures TestLines(Reasons(msgs)) == [] && ReasonLines(Reasons(msgs)) == msgs
  {
    if msgs != [] {
      ReasonsAreReasons(msgs[1..]);
    }
  }

  lemma EntryLines(name: string, msgs: seq<string>)
    ensures TestLines([TestPassed(name)]) == [TestPassed(name)] && ReasonLines([TestPassed(name)]) == []
    ensures TestLines([TestFailed(name)] + Reasons(msgs)) == [TestFailed(name)]
    ensures ReasonLines([TestFailed(name)] + Reasons(msgs)) == msgs
  {
    assert [TestPassed(name)][1..] == [] && [TestFailed(name)][1..] == [];
    TestLinesPlus([TestFailed(name)], Reasons(msgs));
    ReasonLinesPlus([TestFailed(name)], Reasons(msgs));
    ReasonsAreReasons(msgs);
  }

  function TestLine(name: string, msgs: seq<string>): Line {
    if msgs == [] then TestPassed(name) else TestFailed(name)
  }

  /** What one test adds to the account. */
  lemma AccountStep(names: seq<string>, failed: seq<seq<string>>, n: nat)
    requires 0 < n <= |names| && n <= |failed|
    ensures var msgs, name := failed[n - 1], names[n - 1];
      && TestLines(Account(names, failed, n)) ==
           TestLines(Account(names, failed, n - 1)) + [TestLine(name, msgs)]
      && ReasonLines(Account(names, failed, n)) == ReasonLines(Account(names, failed, n - 1)) + msgs
  {
    hide TestLines, ReasonLines, Reasons;
    var msgs, name := failed[n - 1], names[n - 1];
    EntryLines(name, msgs);
    var now := OfTest(name, msgs);
    TestLinesPlus(Account(names, failed, n - 1), now);
    ReasonLinesPlus(Account(names, failed, n - 1), now);
  }

  lemma FlattenStep(failed: seq<seq<string>>, n: nat)
    requires 0 < n <= |failed|
    ensures Flatten(failed[..n]) == Flatten(failed[..n - 1]) + failed[n - 1]
  {
    assert failed[..n][..n - 1] == failed[..n - 1];
  }

  /** The number of lines before test k: one for each test, and one for each message. */
  function LinesBefore(failed: seq<seq<string>>, k: nat): nat
    requires k <= |failed|
  {
    if k == 0 then 0 else LinesBefore(failed, k - 1) + 1 + |failed[k - 1]|
  }

  lemma {:induction false} ReasonsAt(msgs: seq<string>)
    ensures |Reasons(msgs)| == |msgs| && forall j :: 0 <= j < |msgs| ==> Reasons(msgs)[j] == Because(msgs[j])
  {
    if msgs != [] {
      ReasonsAt(msgs[1..]);
    }
  }

  /** From position p on the lines are those of one test, directly followed by its messages. */
  ghost predicate TestAt(lines: seq<Line>, p: nat, name: string, msgs: seq<string>) {
    && p + 1 + |msgs| <= |lines|
    && lines[p] == (if msgs == [] then TestPassed(name) else TestFailed(name))
    && forall j :: 0 <= j < |msgs| ==> lines[p + 1 + j] == Because(msgs[j])
  }

  lemma TestAtStays(lines: seq<Line>, more: seq<Line>, p: nat, name: string, msgs: seq<string>)
    requires TestAt(lines, p, name, msgs)
    ensures TestAt(lines + more, p, name, msgs)
  {
  }

  lemma TestAtEnd(lines: seq<Line>, name: string, msgs: seq<string>)
    ensures TestAt(lines + OfTest(name, msgs), |lines|, name, msgs) && |OfTest(name, msgs)| == 1 + |msgs|
  {
    hide Reasons;
    ReasonsAt(msgs);
    var last := OfTest(name, msgs);
    forall j | 0 <= j < |msgs|
      ensures (lines + last)[|lines| + 1 + j] == Because(msgs[j])
    {
      assert (lines + last)[|lines| + 1 + j] == last[1 + j];
    }
  }

  /** The account line by line: each test in order, with its messages directly behind it. */
  lemma {:induction false} SummaryIsInOrder(names: seq<string>, failed: seq<seq<string>>, n: nat)
    requires n <= |names| && n <= |failed|
    ensures |Account(names, failed, n)| == LinesBefore(failed, n)
    ensures forall k :: 0 <= k < n ==>
              TestAt(Account(names, failed, n), LinesBefore(failed, k), names[k], failed[k])
  {
    hide *;
    if n > 0 {
      var before, last := Account(names, failed, n - 1), OfTest(names[n - 1], failed[n - 1]);
      SummaryIsInOrder(names, failed, n - 1);
      AccountNext(names, failed, n - 1);
      LinesNext(failed, n - 1);
      TestAtEnd(before, names[n - 1], failed[n - 1]);
      forall k | 0 <= k < n
        ensures TestAt(before + last, LinesBefore(failed, k), names[k], failed[k])
      {
        if k < n - 1 {
          TestAtStays(before, last, LinesBefore(failed, k), names[k], failed[k]);
        }
      }
    } else {
      NoLines(names, failed);
    }
  }

  lemma NoLines(names: seq<string>, failed: seq<seq<string>>)
    ensures Account(names, failed, 0) == [] && LinesBefore(failed, 0) == 0
  {
  }

  lemma LinesNext(failed: seq<seq<string>>, k: nat)
    requires k < |failed|
    ensures LinesBefore(failed, k + 1) == LinesBefore(failed, k) + 1 + |failed[k]|
  {
  }

  /** The lines that n tests deserve. */
  function Told(names: seq<string>, failed: seq<seq<string>>, n: nat): (lines: seq<Line>)
    requires n <= |names| && n <= |failed|
    ensures |lines| == n && forall k :: 0 <= k < n ==> lines[k] == TestLine(names[k], failed[k])
  {
    if n == 0 then [] else Told(names, failed, n - 1) + [TestLine(names[n - 1], failed[n - 1])]
  }

  lemma {:induction false} TestLinesFaithful(names: seq<string>, failed: seq<seq<string>>, n: nat)
    requires n <= |names| && n <= |failed|
    ensures TestLines(Account(names, failed, n)) == Told(names, failed, n)
  {
    if n > 0 {
      hide TestLines, Account, TestLine;
      TestLinesFaithful(names, failed, n - 1);
      AccountStep(names, failed, n);
    }
  }

  lemma {:induction false} ReasonsFaithful(names: seq<string>, failed: seq<seq<string>>, n: nat)
    requires n <= |names| && n <= |failed|
    ensures ReasonLines(Account(names, failed, n)) == Flatten(failed[..n])
  {
    if n > 0 {
      hide *;
      ReasonsFaithful(names, failed, n - 1);
      AccountStep(names, failed, n);
      FlattenStep(failed, n);
    }
  }

  /** The summary names every test once, in order and with its result, and gives every
      failure message once, in order. */
  lemma SummaryIsFaithful(names: seq<string>, failed: seq<seq<string>>, n: nat)
    requires n <= |names| && n <= |failed|
    ensures var lines := TestLines(Account(names, failed, n));
      |lines| == n
      && forall k :: 0 <= k < n ==> lines[k] == TestLine(names[k], failed[k])
    ensures ReasonLines(Account(names, failed, n)) == Flatten(failed[..n])
  {
    hide *;
    TestLinesFaithful(names, failed, n);
    ReasonsFaithful(names, failed, n);
  }
}
