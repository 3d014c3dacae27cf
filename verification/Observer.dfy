/** The mutation-contract observer: one JSON-mode Go test log, classified without trusting its exit code. */
module Observer {
  import opened Common

  datatype Action = Run | Pass | Fail | OtherAction(name: string)

  datatype Event = Event(test: string, action: Action)

  /** What a line decodes to: a JSON object with both fields, a JSON value that is no object, or anything else. */
  datatype Body = Says(event: Event) | NotObject | Ignored

  /** A log line, and whether it holds a timeout marker. */
  datatype Line = Line(timeout: bool, body: Body)

  datatype Requirement = Nothing | AllRun | AllPass

  datatype Outcome =
    | TimeoutOrKill
    | Crashed
    | NotRun(names: set<string>)
    | NotPassed(names: set<string>)
    | NoDeclaredFailure
    | Passed(names: set<string>)
    | Skipped(names: set<string>)
    | Caught(names: set<string>)

  predicate Infrastructure(o: Outcome) {
    o.TimeoutOrKill? || o.Crashed? || o.NotRun? || o.NotPassed? || o.NoDeclaredFailure?
  }

  /** The name up to its first slash. */
  function RootTest(name: string): (root: string)
    ensures root <= name && '/' !in root
    ensures root == name || name[|root|] == '/'
  {
    if name == [] || name[0] == '/' then [] else [name[0]] + RootTest(name[1..])
  }

  predicate Shows(l: Line, name: string, a: Action) {
    l.body.Says? && RootTest(l.body.event.test) == name && l.body.event.action == a
  }

  predicate Seen(log: seq<Line>, name: string, a: Action) {
    exists i | 0 <= i < |log| :: Shows(log[i], name, a)
  }

  predicate TimedOut(log: seq<Line>) {
    exists i | 0 <= i < |log| :: log[i].timeout
  }

  /** Some line is JSON but no object; reading its fields raises. */
  predicate Malformed(log: seq<Line>) {
    exists i | 0 <= i < |log| :: log[i].body.NotObject?
  }

  function With(log: seq<Line>, expected: set<string>, a: Action): set<string> {
    set n | n in expected && Seen(log, n, a)
  }

  function Without(log: seq<Line>, expected: set<string>, a: Action): set<string> {
    set n | n in expected && !Seen(log, n, a)
  }

  /** What the observer reports, from which declared tests showed which actions. */
  function Observe(log: seq<Line>, expected: set<string>, exitCode: int, req: Requirement): Outcome {
    if TimedOut(log) then TimeoutOrKill
    else if Malformed(log) then Crashed
    else if exitCode == 0 then
      if req != Nothing && Without(log, expected, Run) != {} then NotRun(Without(log, expected, Run))
      else if req == AllPass && Without(log, expected, Pass) != {} then NotPassed(Without(log, expected, Pass))
      else if With(log, expected, Pass) != {} then Passed(With(log, expected, Pass))
      else Skipped(With(log, expected, Run))
    else if With(log, expected, Fail) != {} then Caught(With(log, expected, Fail))
    else NoDeclaredFailure
  }

  method ComputeObserve(log: seq<Line>, expected: set<string>, exitCode: int, req: Requirement) returns (o: Outcome)
    ensures o == Observe(log, expected, exitCode, req)
  {
    if exists i | 0 <= i < |log| :: log[i].timeout {
      return TimeoutOrKill;
    }
    var actions: map<string, set<Action>> := map n | n in expected :: {};
    for k := 0 to |log|
      invariant actions.Keys == expected && !Malformed(log[..k])
      invariant forall n, a | n in expected :: a in actions[n] <==> Seen(log[..k], n, a)
    {
      assert log[..k + 1] == log[..k] + [log[k]];
      if log[k].body.NotObject? {
        return Crashed;
      }
      if log[k].body.Says? {
        var event := log[k].body.event;
        var root := RootTest(event.test);
        if root in actions {
          actions := actions[root := actions[root] + {event.action}];
        }
      }
      forall n, a | n in expected ensures a in actions[n] <==> Seen(log[..k + 1], n, a) {
        SeenSnoc(log, k, n, a);
      }
    }
    assert log[..|log|] == log;
    var failed := set n | n in expected && Fail in actions[n];
    var passed := set n | n in expected && Pass in actions[n];
    var ran := set n | n in expected && Run in actions[n];
    assert failed == With(log, expected, Fail) && passed == With(log, expected, Pass)
           && ran == With(log, expected, Run);
    if exitCode == 0 {
      if req == AllRun || req == AllPass {
        var missing := set n | n in expected && Run !in actions[n];
        assert missing == Without(log, expected, Run);
        if missing != {} {
          return NotRun(missing);
        }
      }
      if req == AllPass {
        var missing := set n | n in expected && Pass !in actions[n];
        assert missing == Without(log, expected, Pass);
        if missing != {} {
          return NotPassed(missing);
        }
      }
      if passed != {} {
        return Passed(passed);
      }
      return Skipped(ran);
    }
    if failed != {} {
      return Caught(failed);
    }
    return NoDeclaredFailure;
  }

  // ---------------------------------------------------------------- what an observation says

  /** The declared tests of which some line reports this action, by their own name or that of a subtest. */
  function Reported(log: seq<Line>, expected: set<string>, a: Action): set<string> {
    set i | 0 <= i < |log| && About(log[i], expected) && log[i].body.event.action == a ::
      RootTest(log[i].body.event.test)
  }

  lemma WithIsReported(log: seq<Line>, expected: set<string>, a: Action)
    ensures With(log, expected, a) == Reported(log, expected, a)
    ensures Without(log, expected, a) == expected - Reported(log, expected, a)
  {
    forall n | n in expected ensures Seen(log, n, a) <==> n in Reported(log, expected, a) {
      if Seen(log, n, a) {
        var i :| 0 <= i < |log| && Shows(log[i], n, a);
        assert About(log[i], expected);
      }
      if n in Reported(log, expected, a) {
        var i :| 0 <= i < |log| && About(log[i], expected) && log[i].body.event.action == a
                 && RootTest(log[i].body.event.test) == n;
        assert Shows(log[i], n, a);
      }
    }
  }

  /** A timeout marker comes before everything, and a line that is JSON but no object before every other answer. */
  lemma UnusableMeaning(log: seq<Line>, expected: set<string>, exitCode: int, req: Requirement)
    ensures Observe(log, expected, exitCode, req) == TimeoutOrKill <==> exists l | l in log :: l.timeout
    ensures Observe(log, expected, exitCode, req) == Crashed <==>
            (forall l | l in log :: !l.timeout) && exists l | l in log :: l.body.NotObject?
  {
    if TimedOut(log) {
      var i :| 0 <= i < |log| && log[i].timeout;
      assert log[i] in log;
    }
    if Malformed(log) {
      var i :| 0 <= i < |log| && log[i].body.NotObject?;
      assert log[i] in log;
    }
  }

  /** A failing run: it is caught exactly when some line reports the failure of a declared test, and the tests
      named are exactly those; otherwise no declared test failed. */
  lemma FailureMeaning(log: seq<Line>, expected: set<string>, exitCode: int, req: Requirement)
    requires !TimedOut(log) && !Malformed(log) && exitCode != 0
    ensures var o := Observe(log, expected, exitCode, req);
            && (o.Caught? <==>
                exists i | 0 <= i < |log| :: About(log[i], expected) && log[i].body.event.action == Fail)
            && (o.Caught? ==> o.names == Reported(log, expected, Fail))
            && (!o.Caught? ==> o == NoDeclaredFailure)
  {
    WithIsReported(log, expected, Fail);
    var failed := Reported(log, expected, Fail);
    if failed != {} {
      var n :| n in failed;
    }
    if i :| 0 <= i < |log| && About(log[i], expected) && log[i].body.event.action == Fail {
      assert RootTest(log[i].body.event.test) in failed;
    }
  }

  /** A run that exits cleanly: tests that did not run, or did not pass, are named exactly when that is
      required and some are missing; else the tests that passed are named, and without any those that ran. */
  lemma SuccessMeaning(log: seq<Line>, expected: set<string>, req: Requirement)
    requires !TimedOut(log) && !Malformed(log)
    ensures var o := Observe(log, expected, 0, req);
            var ran, passed := Reported(log, expected, Run), Reported(log, expected, Pass);
            && (o.NotRun? <==> req != Nothing && ran != expected)
            && (o.NotRun? ==> o.names == expected - ran)
            && (o.NotPassed? <==> req == AllPass && ran == expected && passed != expected)
            && (o.NotPassed? ==> o.names == expected - passed)
            && (o.Passed? <==> !o.NotRun? && !o.NotPassed? && passed != {})
            && (o.Passed? ==> o.names == passed)
            && (o.Skipped? <==> !o.NotRun? && !o.NotPassed? && passed == {})
            && (o.Skipped? ==> o.names == ran)
  {
    WithIsReported(log, expected, Run);
    WithIsReported(log, expected, Pass);
    NoneMissing(expected, Reported(log, expected, Run));
    NoneMissing(expected, Reported(log, expected, Pass));
  }

  lemma NoneMissing(expected: set<string>, found: set<string>)
    requires found <= expected
    ensures expected - found == {} <==> found == expected
  {
    if expected - found == {} {
      forall n | n in expected ensures n in found { assert n !in expected - found; }
    }
  }

  // ---------------------------------------------------------------- what an observation depends on

  lemma SeenConcat(a: seq<Line>, b: seq<Line>, name: string, act: Action)
    ensures Seen(a + b, name, act) <==> Seen(a, name, act) || Seen(b, name, act)
  {
    if Seen(a, name, act) {
      var i :| 0 <= i < |a| && Shows(a[i], name, act);
      assert Shows((a + b)[i], name, act);
    }
    if Seen(b, name, act) {
      var i :| 0 <= i < |b| && Shows(b[i], name, act);
      assert Shows((a + b)[|a| + i], name, act);
    }
  }

  lemma SeenSnoc(log: seq<Line>, k: nat, name: string, act: Action)
    requires k < |log|
    ensures Seen(log[..k + 1], name, act) <==> Seen(log[..k], name, act) || Shows(log[k], name, act)
  {
    assert log[..k + 1] == log[..k] + [log[k]];
    SeenConcat(log[..k], [log[k]], name, act);
    assert Seen([log[k]], name, act) <==> Shows([log[k]][0], name, act);
  }

  /** Only which lines occur matters: not their order, and not how often. */
  lemma SameLinesSameObservation(a: seq<Line>, b: seq<Line>, expected: set<string>, exitCode: int, req: Requirement)
    requires forall l :: l in a <==> l in b
    ensures Observe(a, expected, exitCode, req) == Observe(b, expected, exitCode, req)
  {
    assert forall i | 0 <= i < |a| :: a[i] in b;
    assert forall i | 0 <= i < |b| :: b[i] in a;
    SameActionsSameObservation(a, b, expected, exitCode, req);
  }

  predicate About(l: Line, expected: set<string>) {
    l.body.Says? && RootTest(l.body.event.test) in expected
  }

  function Restrict(log: seq<Line>, expected: set<string>): seq<Line> {
    if log == [] then [] else
    var rest := Restrict(log[1..], expected);
    if About(log[0], expected) then [log[0]] + rest else rest
  }

  lemma {:induction false} RestrictMembers(log: seq<Line>, expected: set<string>)
    ensures forall l :: l in Restrict(log, expected) <==> l in log && About(l, expected)
  {
    if log != [] {
      RestrictMembers(log[1..], expected);
      assert log == [log[0]] + log[1..];
    }
  }

  lemma SameActionsSameObservation(a: seq<Line>, b: seq<Line>, expected: set<string>, exitCode: int, req: Requirement)
    requires TimedOut(a) == TimedOut(b) && Malformed(a) == Malformed(b)
    requires forall n, act | n in expected :: Seen(a, n, act) <==> Seen(b, n, act)
    ensures Observe(a, expected, exitCode, req) == Observe(b, expected, exitCode, req)
  {
    assert forall act :: With(a, expected, act) == With(b, expected, act);
    assert forall act :: Without(a, expected, act) == Without(b, expected, act);
  }

  lemma OwnLines(log: seq<Line>, expected: set<string>)
    ensures var own := Restrict(log, expected);
            && !Malformed(own) && (TimedOut(own) ==> TimedOut(log))
            && forall n, act | n in expected :: Seen(log, n, act) <==> Seen(own, n, act)
  {
    var own := Restrict(log, expected);
    RestrictMembers(log, expected);
    assert forall i | 0 <= i < |own| :: own[i] in own;
    forall n, act | n in expected ensures Seen(log, n, act) <==> Seen(own, n, act) {
      if Seen(log, n, act) {
        var i :| 0 <= i < |log| && Shows(log[i], n, act);
        assert log[i] in own;
      }
      if Seen(own, n, act) {
        var i :| 0 <= i < |own| && Shows(own[i], n, act);
        assert own[i] in log;
      }
    }
  }

  /** Without a timeout marker, one source's observation of the aggregate log is its observation of the log
      cut down to that source's own tests, if and only if no line is a JSON value that is no object. */
  lemma AggregateStandsForSource(log: seq<Line>, expected: set<string>, exitCode: int, req: Requirement)
    requires !TimedOut(log)
    ensures Observe(log, expected, exitCode, req) == Observe(Restrict(log, expected), expected, exitCode, req)
            <==> !Malformed(log)
  {
    OwnLines(log, expected);
    if !Malformed(log) {
      SameActionsSameObservation(log, Restrict(log, expected), expected, exitCode, req);
    }
  }
}
