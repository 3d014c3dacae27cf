/** Splitting the invariant tests over preflight lanes, and joining the lanes' logs again. */
module Shards {
  import opened Common
  import opened Observer

  /** Every `count`-th name from `first` on. */
  function Lane(names: seq<string>, first: nat, count: nat): (lane: seq<string>)
    requires count >= 1
    ensures lane == [] <==> first >= |names|
    decreases |names| - first
  {
    if first >= |names| then [] else [names[first]] + Lane(names, first + count, count)
  }

  function Lanes(names: seq<string>, first: nat, count: nat, n: nat): (lanes: seq<seq<string>>)
    requires count >= 1
    ensures |lanes| == n
    ensures forall k | 0 <= k < n :: lanes[k] == Lane(names, first + k, count)
  {
    seq(n, k requires 0 <= k < n => Lane(names, first + k, count))
  }

  function Flatten<T>(parts: seq<seq<T>>): seq<T> {
    if parts == [] then [] else parts[0] + Flatten(parts[1..])
  }

  function Join(names: seq<string>): string {
    if names == [] then "" else if |names| == 1 then names[0] else names[0] + "|" + Join(names[1..])
  }

  /** The test pattern that selects exactly these names. */
  function Selector(expected: seq<string>): string {
    "^(" + Join(expected) + ")$"
  }

  datatype ShardError = BadCount | TooManyLanes | EmptyLane | LostTests

  const MAX_LANES := 32

  lemma {:induction false} FlattenSnoc<T>(parts: seq<seq<T>>, last: seq<T>)
    ensures Flatten(parts + [last]) == Flatten(parts) + last
  {
    if parts == [] {
      assert parts + [last] == [last];
    } else {
      assert (parts + [last])[1..] == parts[1..] + [last];
      FlattenSnoc(parts[1..], last);
    }
  }

  /** The lanes starting at `first` hold exactly the names from `first` on. */
  lemma {:induction false} LanesHoldRest(names: seq<string>, first: nat, count: nat)
    requires count >= 1 && first <= |names|
    ensures multiset(Flatten(Lanes(names, first, count, count))) == multiset(names[first..])
    decreases |names| - first
  {
    if first == |names| {
      AllEmpty(Lanes(names, first, count, count));
      assert names[first..] == [];
    } else {
      LanesHoldRest(names, first + 1, count);
      LanesShift(names, first, count);
      SplitHead(names, first);
    }
  }

  /** Starting one name later moves that name out of the lanes and the rest of its lane to the end. */
  lemma LanesShift(names: seq<string>, first: nat, count: nat)
    requires count >= 1 && first < |names|
    ensures multiset(Flatten(Lanes(names, first, count, count)))
            == multiset{names[first]} + multiset(Flatten(Lanes(names, first + 1, count, count)))
  {
    var mid := Lanes(names, first + 1, count, count - 1);
    var tail := Lane(names, first + count, count);
    assert Lanes(names, first, count, count) == [[names[first]] + tail] + mid;
    assert ([[names[first]] + tail] + mid)[1..] == mid;
    assert Lanes(names, first + 1, count, count) == mid + [tail];
    FlattenSnoc(mid, tail);
  }

  lemma {:induction false} AllEmpty<T>(parts: seq<seq<T>>)
    requires forall k | 0 <= k < |parts| :: parts[k] == []
    ensures Flatten(parts) == []
  {
    if parts != [] { AllEmpty(parts[1..]); }
  }

  /** How many of the positions from `first` on a stride of `count` meets below `n`. */
  function Strides(n: nat, first: nat, count: nat): nat
    requires count >= 1
    decreases n - first
  {
    if first >= n then 0 else 1 + Strides(n, first + count, count)
  }

  lemma {:induction false} LaneLength(names: seq<string>, first: nat, count: nat)
    requires count >= 1
    ensures |Lane(names, first, count)| == Strides(|names|, first, count)
    decreases |names| - first
  {
    if first < |names| { LaneLength(names, first + count, count); }
  }

  lemma {:induction false} StridesBalanced(n: nat, a: nat, b: nat, count: nat)
    requires count >= 1 && a <= b < a + count
    ensures Strides(n, b, count) <= Strides(n, a, count) <= Strides(n, b, count) + 1
    decreases n - a
  {
    if b < n { StridesBalanced(n, a + count, b + count, count); }
  }

  /** Lanes `a` and `b`, less than a stride apart, differ by at most one name. */
  lemma LanesBalanced(names: seq<string>, a: nat, b: nat, count: nat)
    requires count >= 1 && a <= b < a + count
    ensures |Lane(names, b, count)| <= |Lane(names, a, count)| <= |Lane(names, b, count)| + 1
  {
    LaneLength(names, a, count);
    LaneLength(names, b, count);
    StridesBalanced(|names|, a, b, count);
  }

  /** The shard guard: it accepts exactly the lane counts from 1 to 32 that do not exceed the tests, and
      its own checks on the lanes never fire. */
  method ShardedSelectors(expected: seq<string>, count: int) returns (r: Result<seq<string>, ShardError>)
    ensures r.Ok? <==> 1 <= count <= MAX_LANES && count <= |expected|
    ensures r.Ok? ==>
              |r.value| == count && forall k | 0 <= k < count :: r.value[k] == Selector(Lane(expected, k, count))
  {
    if count < 1 || count > MAX_LANES {
      return Err(BadCount);
    }
    if count > |expected| {
      return Err(TooManyLanes);
    }
    var groups := Lanes(expected, 0, count, count);
    var flattened := Flatten(groups);
    LanesHoldRest(expected, 0, count);
    assert expected[0..] == expected;
    assert |multiset(flattened)| == |multiset(expected)|;
    if exists k | 0 <= k < |groups| :: groups[k] == [] {
      return Err(EmptyLane);
    }
    assert (set x | x in flattened) == (set x | x in expected) by {
      assert forall x :: x in flattened <==> x in multiset(flattened);
      assert forall x :: x in expected <==> x in multiset(expected);
    }
    if |flattened| != |expected| || (set x | x in flattened) != (set x | x in expected) {
      return Err(LostTests);
    }
    return Ok(seq(count, k requires 0 <= k < count => Selector(groups[k])));
  }

  /** The lanes are non-empty, cover every test as often as it is declared, and differ by at most one. */
  lemma LanesPartition(expected: seq<string>, count: nat)
    requires 1 <= count <= |expected|
    ensures var lanes := Lanes(expected, 0, count, count);
            && multiset(Flatten(lanes)) == multiset(expected)
            && (forall k | 0 <= k < count :: lanes[k] != [])
            && (forall j, k | 0 <= j < k < count :: |lanes[k]| <= |lanes[j]| <= |lanes[k]| + 1)
  {
    LanesHoldRest(expected, 0, count);
    assert expected[0..] == expected;
    var lanes := Lanes(expected, 0, count, count);
    forall j, k | 0 <= j < k < count ensures |lanes[k]| <= |lanes[j]| <= |lanes[k]| + 1 {
      LanesBalanced(expected, j, k, count);
    }
  }

  lemma {:induction false} LaneIndex(names: seq<string>, first: nat, count: nat, x: string) returns (i: nat)
    requires count >= 1 && x in Lane(names, first, count)
    ensures first <= i < |names| && names[i] == x
    decreases |names| - first
  {
    if names[first] == x {
      i := first;
    } else {
      i := LaneIndex(names, first + count, count, x);
    }
  }

  /** Distinct tests never share two lanes. */
  lemma {:induction false} LanesDisjoint(names: seq<string>, a: nat, b: nat, count: nat, x: string)
    requires a < b < a + count
    requires forall i, j | 0 <= i < j < |names| :: names[i] != names[j]
    ensures !(x in Lane(names, a, count) && x in Lane(names, b, count))
    decreases |names| - a
  {
    if x in Lane(names, a, count) && x in Lane(names, b, count) {
      var i := LaneIndex(names, b, count, x);
      assert names[a] != x;
      LanesDisjoint(names, b, a + count, count, x);
    }
  }

  // ---------------------------------------------------------------- joining the logs

  lemma {:induction false} FlattenMembers<T>(parts: seq<seq<T>>, x: T)
    ensures x in Flatten(parts) <==> exists p | p in parts :: x in p
  {
    if parts != [] {
      FlattenMembers(parts[1..], x);
      assert forall p :: p in parts <==> p == parts[0] || p in parts[1..];
    }
  }

  /** The lanes' logs, joined in any order, observe every source as one unsharded log of the same lines does. */
  lemma ShardingIsTransparent(lanes: seq<seq<Line>>, order: seq<seq<Line>>, whole: seq<Line>,
                              expected: set<string>, exitCode: int, req: Requirement)
    requires multiset(lanes) == multiset(order)
    requires multiset(whole) == multiset(Flatten(lanes))
    ensures Observe(Flatten(order), expected, exitCode, req) == Observe(whole, expected, exitCode, req)
  {
    assert forall lane :: lane in lanes <==> lane in multiset(lanes);
    assert forall lane :: lane in order <==> lane in multiset(order);
    forall l ensures l in Flatten(order) <==> l in whole {
      FlattenMembers(lanes, l);
      FlattenMembers(order, l);
      assert l in multiset(whole) <==> l in multiset(Flatten(lanes));
    }
    SameLinesSameObservation(Flatten(order), whole, expected, exitCode, req);
  }

  lemma OnlyLaneThatShows(lanes: seq<seq<Line>>, k: nat, name: string, a: Action)
    requires k < |lanes|
    requires forall j | 0 <= j < |lanes| && j != k :: !Seen(lanes[j], name, a)
    ensures Seen(Flatten(lanes), name, a) <==> Seen(lanes[k], name, a)
  {
    if Seen(lanes[k], name, a) {
      var i :| 0 <= i < |lanes[k]| && Shows(lanes[k][i], name, a);
      assert lanes[k] in lanes && lanes[k][i] in lanes[k];
      FlattenMembers(lanes, lanes[k][i]);
    }
    if Seen(Flatten(lanes), name, a) {
      var i :| 0 <= i < |Flatten(lanes)| && Shows(Flatten(lanes)[i], name, a);
      FlattenMembers(lanes, Flatten(lanes)[i]);
      var lane :| lane in lanes && Flatten(lanes)[i] in lane;
    }
  }

  // ---------------------------------------------------------------- the stride lanes' own logs

  /** What each lane logs of a run: the lines about its own tests. */
  function LaneLogs(names: seq<string>, count: nat, whole: seq<Line>): (logs: seq<seq<Line>>)
    requires count >= 1
    ensures |logs| == count
  {
    seq(count, k requires 0 <= k < count => Restrict(whole, set n | n in Lane(names, k, count)))
  }

  lemma InSomeLane(names: seq<string>, count: nat, name: string) returns (k: nat)
    requires 1 <= count <= |names| && name in names
    ensures k < count && name in Lane(names, k, count)
  {
    var lanes := Lanes(names, 0, count, count);
    LanesPartition(names, count);
    assert name in multiset(names) && name in multiset(Flatten(lanes));
    FlattenMembers(lanes, name);
    var lane :| lane in lanes && name in lane;
    k :| 0 <= k < count && lanes[k] == lane;
  }

  lemma JoinedMembers(names: seq<string>, count: nat, whole: seq<Line>, order: seq<seq<Line>>, l: Line)
    requires 1 <= count <= |names| && multiset(order) == multiset(LaneLogs(names, count, whole))
    ensures l in Flatten(order) ==> l in whole && l.body.Says?
    ensures l in whole && l.body.Says? && RootTest(l.body.event.test) in names ==> l in Flatten(order)
  {
    var logs := LaneLogs(names, count, whole);
    FlattenMembers(order, l);
    assert forall x :: x in order <==> x in multiset(order);
    assert forall x :: x in logs <==> x in multiset(logs);
    if l in Flatten(order) {
      var log :| log in logs && l in log;
      var k :| 0 <= k < count && logs[k] == log;
      RestrictMembers(whole, set n | n in Lane(names, k, count));
    }
    if l in whole && l.body.Says? && RootTest(l.body.event.test) in names {
      var k := InSomeLane(names, count, RootTest(l.body.event.test));
      RestrictMembers(whole, set n | n in Lane(names, k, count));
      assert l in logs[k] && logs[k] in logs;
    }
  }

  /** Each stride lane logs its own tests; joined in any order the lanes observe every source whose tests are
      among the sharded ones exactly as the unsharded log does. */
  lemma StrideLanesObserveTheWhole(names: seq<string>, count: nat, whole: seq<Line>, order: seq<seq<Line>>,
                                   expected: set<string>, exitCode: int, req: Requirement)
    requires 1 <= count <= |names| && multiset(order) == multiset(LaneLogs(names, count, whole))
    requires !TimedOut(whole) && !Malformed(whole) && forall n | n in expected :: n in names
    ensures Observe(Flatten(order), expected, exitCode, req) == Observe(whole, expected, exitCode, req)
  {
    var joined := Flatten(order);
    forall i | 0 <= i < |joined| ensures joined[i] in whole && joined[i].body.Says? {
      JoinedMembers(names, count, whole, order, joined[i]);
    }
    forall n, act | n in expected ensures Seen(joined, n, act) <==> Seen(whole, n, act) {
      if Seen(whole, n, act) {
        var i :| 0 <= i < |whole| && Shows(whole[i], n, act);
        JoinedMembers(names, count, whole, order, whole[i]);
      }
    }
    SameActionsSameObservation(joined, whole, expected, exitCode, req);
  }

  /** When the lanes run only their own tests and the tests are distinct, each test is observed in the joined
      log as in its lane. */
  lemma LaneSpeaksForItsTests(names: seq<string>, count: nat, logs: seq<seq<Line>>, k: nat, name: string, a: Action)
    requires 1 <= count && |logs| == count && k < count && name in Lane(names, k, count)
    requires forall i, j | 0 <= i < j < |names| :: names[i] != names[j]
    requires forall j, n | 0 <= j < count && Seen(logs[j], n, a) :: n in Lane(names, j, count)
    ensures Seen(Flatten(logs), name, a) <==> Seen(logs[k], name, a)
  {
    forall j | 0 <= j < count && j != k ensures !Seen(logs[j], name, a) {
      if j < k { LanesDisjoint(names, j, k, count, name); } else { LanesDisjoint(names, k, j, count, name); }
    }
    OnlyLaneThatShows(logs, k, name, a);
  }

  // ---------------------------------------------------------------- what a lane and its pattern select

  /** Lane `first` holds every `count`-th name from `first` on, in order. */
  lemma {:induction false} LaneAt(names: seq<string>, first: nat, count: nat, i: nat)
    requires count >= 1 && i < |Lane(names, first, count)|
    ensures first + i * count < |names| && Lane(names, first, count)[i] == names[first + i * count]
    decreases i
  {
    if i > 0 {
      LaneAt(names, first + count, count, i - 1);
      assert first + count + (i - 1) * count == first + i * count;
    }
  }

  /** The alternatives of a pattern: the text cut at every bar. */
  function Alternatives(s: string): (r: seq<string>)
    ensures r != []
  {
    if s == [] then [[]]
    else if s[0] == '|' then [[]] + Alternatives(s[1..])
    else
      var rest := Alternatives(s[1..]);
      [[s[0]] + rest[0]] + rest[1..]
  }

  lemma {:induction false} AlternativesOfHead(name: string, rest: string)
    requires '|' !in name
    ensures Alternatives(name) == [name]
    ensures Alternatives(name + "|" + rest) == [name] + Alternatives(rest)
    decreases |name|
  {
    var s := name + "|" + rest;
    if name == [] {
      assert s[1..] == rest;
    } else {
      AlternativesOfHead(name[1..], rest);
      assert s[1..] == name[1..] + "|" + rest && name == [name[0]] + name[1..];
    }
  }

  lemma {:induction false} JoinedAlternatives(names: seq<string>)
    requires names != [] && forall i | 0 <= i < |names| :: '|' !in names[i]
    ensures Alternatives(Join(names)) == names
  {
    if |names| == 1 {
      AlternativesOfHead(names[0], "");
    } else {
      JoinedAlternatives(names[1..]);
      AlternativesOfHead(names[0], Join(names[1..]));
      assert names == [names[0]] + names[1..];
    }
  }

  /** A pattern is anchored at both ends and lists as alternatives exactly the tests it was made from, in order. */
  lemma SelectorSelects(names: seq<string>)
    requires names != [] && forall i | 0 <= i < |names| :: '|' !in names[i]
    ensures var s := Selector(names);
            && |s| >= 4 && s[..2] == "^(" && s[|s| - 2..] == ")$"
            && Alternatives(s[2..|s| - 2]) == names
  {
    JoinedAlternatives(names);
    var s := Selector(names);
    assert s[2..|s| - 2] == Join(names);
  }
}
