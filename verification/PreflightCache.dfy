/** The aggregate preflight cache: created from one clean run, verified by re-deriving everything. */
module PreflightCache {
  import opened Common
  import opened Observer
  import opened Shards

  /** A SHA-256 digest, taken to be injective: it is known by what it digests. */
  datatype Digest<T> = Sha(of: T)

  /** The worktree: its commit, whether it is clean, the contract manifest, the sources, and the tests the
      contracts resolve each source to. */
  datatype Tree = Tree(candidate: string, clean: bool, contracts: string,
                       sources: map<string, string>, tests: map<string, seq<string>>)

  type Log = seq<Line>

  datatype Record = Record(source: string, sourceSha: Digest<string>, expected: seq<string>, selector: string,
                           unit: Outcome, db: Outcome)

  datatype Payload = Payload(version: int, candidate: string, contractsSha: Digest<string>,
                             unitSha: Digest<Log>, dbSha: Digest<Log>, records: seq<Record>)

  const VERSION := 1

  predicate CleanCandidate(t: Tree) {
    IsCommit(t.candidate) && t.clean
  }

  function Names(expected: seq<string>): set<string> {
    set n | n in expected
  }

  function Observation(log: Log, expected: seq<string>): Outcome {
    Observe(log, Names(expected), 0, AllRun)
  }

  /** The record of one source in this worktree with these logs, when the logs prove its invariants. */
  function Derive(t: Tree, unit: Log, db: Log, source: string): Option<Record> {
    if source !in t.sources || source !in t.tests then None else
    var expected := t.tests[source];
    var u, d := Observation(unit, expected), Observation(db, expected);
    if (u.Passed? || u.Skipped?) && d.Passed? then
      Some(Record(source, Sha(t.sources[source]), expected, Selector(expected), u, d))
    else None
  }

  predicate AllDerive(t: Tree, unit: Log, db: Log, sources: seq<string>) {
    forall i | 0 <= i < |sources| :: Derive(t, unit, db, sources[i]).Some?
  }

  function Records(t: Tree, unit: Log, db: Log, sources: seq<string>): (rs: seq<Record>)
    requires AllDerive(t, unit, db, sources)
    ensures |rs| == |sources|
  {
    seq(|sources|, i requires 0 <= i < |sources| => Derive(t, unit, db, sources[i]).value)
  }

  function Created(t: Tree, unit: Log, db: Log, sources: seq<string>): Option<Payload> {
    if CleanCandidate(t) && AllDerive(t, unit, db, sources) then
      Some(Payload(VERSION, t.candidate, Sha(t.contracts), Sha(unit), Sha(db), Records(t, unit, db, sources)))
    else None
  }

  predicate DistinctSources(rs: seq<Record>) {
    forall i, j | 0 <= i < j < |rs| :: rs[i].source != rs[j].source
  }

  /** The cached record of a source agrees with a fresh derivation. */
  predicate Agrees(t: Tree, unit: Log, db: Log, p: Payload, source: string) {
    && Derive(t, unit, db, source).Some?
    && Derive(t, unit, db, source).value in p.records
  }

  predicate Accepts(t: Tree, unit: Log, db: Log, p: Payload, sources: seq<string>) {
    && p.version == VERSION && CleanCandidate(t) && p.candidate == t.candidate
    && p.contractsSha == Sha(t.contracts)
    && p.records != [] && DistinctSources(p.records)
    && p.unitSha == Sha(unit) && p.dbSha == Sha(db)
    && forall i | 0 <= i < |sources| :: Agrees(t, unit, db, p, sources[i])
  }

  // ---------------------------------------------------------------- the cache directory

  /** A source's record before the logs are read. */
  datatype Pending = Pending(source: string, sourceSha: Digest<string>, expected: seq<string>, selector: string)

  /** Disk operations that put a new cache in place: open the temporary file, fill it, rename it. */
  const CREATE_STEPS := 3

  /** The temporary file beside the cache. */
  datatype Temporary = NoFile | Partial | Whole(payload: Payload)

  class CacheDir {
    var unitLog: Option<Log>
    var dbLog: Option<Log>
    var cache: Option<Payload>
    var temporary: Temporary

    constructor (unit: Option<Log>, db: Option<Log>)
      ensures unitLog == unit && dbLog == db && cache == None && temporary == NoFile
    {
      unitLog, dbLog, cache, temporary := unit, db, None, NoFile;
    }

    method SourceRecords(t: Tree, sources: seq<string>) returns (r: Option<seq<Pending>>)
      ensures r.Some? <==> forall i | 0 <= i < |sources| :: sources[i] in t.sources && sources[i] in t.tests
      ensures r.Some? ==> |r.value| == |sources| && forall i | 0 <= i < |sources| ::
                var e := t.tests[sources[i]];
                r.value[i] == Pending(sources[i], Sha(t.sources[sources[i]]), e, Selector(e))
    {
      var records: seq<Pending> := [];
      for i := 0 to |sources|
        invariant |records| == i
        invariant forall j | 0 <= j < i :: sources[j] in t.sources && sources[j] in t.tests
        invariant forall j | 0 <= j < i ::
                    var e := t.tests[sources[j]];
                    records[j] == Pending(sources[j], Sha(t.sources[sources[j]]), e, Selector(e))
      {
        var source := sources[i];
        if source !in t.sources || source !in t.tests {
          return None;
        }
        var expected := t.tests[source];
        records := records + [Pending(source, Sha(t.sources[source]), expected, Selector(expected))];
      }
      return Some(records);
    }

    /** Both observations of every record, when both logs exist and prove its invariants. */
    method ValidateLogs(records: seq<Pending>) returns (r: Option<seq<(Outcome, Outcome)>>)
      ensures r.Some? <==> unitLog.Some? && dbLog.Some? && forall i | 0 <= i < |records| ::
                var u := Observation(unitLog.value, records[i].expected);
                var d := Observation(dbLog.value, records[i].expected);
                (u.Passed? || u.Skipped?) && d.Passed?
      ensures r.Some? ==> |r.value| == |records| && forall i | 0 <= i < |records| ::
                r.value[i] == (Observation(unitLog.value, records[i].expected),
                               Observation(dbLog.value, records[i].expected))
    {
      if unitLog.None? || dbLog.None? {
        return None;
      }
      var outcomes: seq<(Outcome, Outcome)> := [];
      for i := 0 to |records|
        invariant |outcomes| == i
        invariant forall j | 0 <= j < i ::
                    outcomes[j] == (Observation(unitLog.value, records[j].expected),
                                    Observation(dbLog.value, records[j].expected))
        invariant forall j | 0 <= j < i :: (outcomes[j].0.Passed? || outcomes[j].0.Skipped?) && outcomes[j].1.Passed?
      {
        var expected := Names(records[i].expected);
        var unit := ComputeObserve(unitLog.value, expected, 0, AllRun);
        if Infrastructure(unit) || !(unit.Passed? || unit.Skipped?) {
          return None;
        }
        var db := ComputeObserve(dbLog.value, expected, 0, AllRun);
        if Infrastructure(db) || !db.Passed? {
          return None;
        }
        outcomes := outcomes + [(unit, db)];
      }
      return Some(outcomes);
    }

    /** A crash after any number of disk operations leaves the whole old cache or the whole new one. */
    method Create(t: Tree, sources: seq<string>, survived: nat) returns (ok: bool)
      modifies this`cache, this`temporary
      ensures ok <==> unitLog.Some? && dbLog.Some? && Created(t, unitLog.value, dbLog.value, sources).Some?
      ensures cache == if ok && survived >= CREATE_STEPS then Created(t, unitLog.value, dbLog.value, sources)
              else old(cache)
    {
      if !CleanCandidate(t) {
        return false;
      }
      var pending := SourceRecords(t, sources);
      if pending.None? {
        return false;
      }
      var outcomes := ValidateLogs(pending.value);
      if outcomes.None? {
        return false;
      }
      var records: seq<Record> := [];
      for i := 0 to |sources|
        invariant |records| == i
        invariant forall j | 0 <= j < i :: Derive(t, unitLog.value, dbLog.value, sources[j]) == Some(records[j])
      {
        var p := pending.value[i];
        records := records + [Record(p.source, p.sourceSha, p.expected, p.selector, outcomes.value[i].0,
                                     outcomes.value[i].1)];
      }
      assert AllDerive(t, unitLog.value, dbLog.value, sources);
      assert records == Records(t, unitLog.value, dbLog.value, sources);
      var payload := Payload(VERSION, t.candidate, Sha(t.contracts), Sha(unitLog.value), Sha(dbLog.value), records);
      if survived >= 1 {
        temporary := Partial;
      }
      if survived >= 2 {
        temporary := Whole(payload);
      }
      if survived >= CREATE_STEPS {
        cache, temporary := Some(temporary.payload), NoFile;
      }
      return true;
    }

    method Verify(t: Tree, sources: seq<string>) returns (ok: bool)
      ensures ok <==> unitLog.Some? && dbLog.Some? && cache.Some?
                      && Accepts(t, unitLog.value, dbLog.value, cache.value, sources)
    {
      if cache.None? || cache.value.version != VERSION {
        return false;
      }
      var p := cache.value;
      if !CleanCandidate(t) || p.candidate != t.candidate || p.contractsSha != Sha(t.contracts) || p.records == [] {
        return false;
      }
      var bySource := IndexBySource(p.records);
      if bySource.None? {
        return false;
      }
      var current := SourceRecords(t, sources);
      if current.None? {
        ghost var i :| 0 <= i < |sources| && (sources[i] !in t.sources || sources[i] !in t.tests);
        return false;
      }
      if unitLog.None? || dbLog.None? || Sha(unitLog.value) != p.unitSha || Sha(dbLog.value) != p.dbSha {
        return false;
      }
      var outcomes := ValidateLogs(current.value);
      if outcomes.None? {
        ghost var i :| 0 <= i < |sources| && Derive(t, unitLog.value, dbLog.value, sources[i]).None?;
        return false;
      }
      ok := CompareRecords(t, sources, current.value, outcomes.value, p, bySource.value);
    }

    /** Every selected source's fresh record is the cached one. */
    method CompareRecords(t: Tree, sources: seq<string>, current: seq<Pending>, outcomes: seq<(Outcome, Outcome)>,
                          p: Payload, bySource: map<string, Record>) returns (ok: bool)
      requires unitLog.Some? && dbLog.Some? && |current| == |outcomes| == |sources|
      requires forall i | 0 <= i < |sources| ::
                 var c, o := current[i], outcomes[i];
                 Derive(t, unitLog.value, dbLog.value, sources[i])
                   == Some(Record(c.source, c.sourceSha, c.expected, c.selector, o.0, o.1))
      requires forall rec | rec in p.records :: rec.source in bySource && bySource[rec.source] == rec
      requires forall s | s in bySource :: bySource[s] in p.records
      ensures ok <==> forall i | 0 <= i < |sources| :: Agrees(t, unitLog.value, dbLog.value, p, sources[i])
    {
      for i := 0 to |sources|
        invariant forall j | 0 <= j < i :: Agrees(t, unitLog.value, dbLog.value, p, sources[j])
      {
        var c, o := current[i], outcomes[i];
        var derived := Record(c.source, c.sourceSha, c.expected, c.selector, o.0, o.1);
        if c.source !in bySource || bySource[c.source] != derived {
          assert derived !in p.records;
          return false;
        }
      }
      return true;
    }

    static method IndexBySource(records: seq<Record>) returns (r: Option<map<string, Record>>)
      ensures r.Some? <==> DistinctSources(records)
      ensures r.Some? ==> forall rec | rec in records :: rec.source in r.value && r.value[rec.source] == rec
      ensures r.Some? ==> forall s | s in r.value :: r.value[s] in records && r.value[s].source == s
    {
      var index: map<string, Record> := map[];
      for i := 0 to |records|
        invariant DistinctSources(records[..i])
        invariant forall j | 0 <= j < i :: records[j].source in index && index[records[j].source] == records[j]
        invariant forall s | s in index :: index[s] in records[..i] && index[s].source == s
      {
        if records[i].source in index {
          ghost var other := index[records[i].source];
          ghost var j :| 0 <= j < i && records[j] == other;
          assert records[j].source == records[i].source;
          return None;
        }
        index := index[records[i].source := records[i]];
        assert records[..i + 1] == records[..i] + [records[i]];
      }
      assert records[..|records|] == records;
      return Some(index);
    }
  }

  // ---------------------------------------------------------------- the cache agrees with re-derivation

  /** Verifying right after creating accepts every list of cached sources. */
  lemma VerifyAfterCreate(t: Tree, unit: Log, db: Log, sources: seq<string>, selected: seq<string>)
    requires Created(t, unit, db, sources).Some? && sources != []
    requires forall i, j | 0 <= i < j < |sources| :: sources[i] != sources[j]
    requires forall s | s in selected :: s in sources
    ensures Accepts(t, unit, db, Created(t, unit, db, sources).value, selected)
  {
    var p := Created(t, unit, db, sources).value;
    assert forall i | 0 <= i < |sources| :: p.records[i].source == sources[i];
    forall i | 0 <= i < |selected| ensures Agrees(t, unit, db, p, selected[i]) {
      assert selected[i] in selected;
      var k :| 0 <= k < |sources| && sources[k] == selected[i];
      assert p.records[k] in p.records;
    }
  }

  /** Accepting later, in whatever worktree and with whatever logs, means nothing the cache stands for has
      changed: commit, contracts, both logs, and for every selected source its text, its tests and the
      observations both logs give it.  Both worktrees are clean and at a full commit. */
  lemma AcceptedMeansUnchanged(t: Tree, unit: Log, db: Log, sources: seq<string>,
                               t': Tree, unit': Log, db': Log, selected: seq<string>)
    requires Created(t, unit, db, sources).Some?
    requires Accepts(t', unit', db', Created(t, unit, db, sources).value, selected)
    ensures t'.candidate == t.candidate && t'.contracts == t.contracts && unit' == unit && db' == db
    ensures t.clean && t'.clean && IsCommit(t.candidate)
    ensures forall s | s in selected ::
              && s in sources && s in t.sources && s in t'.sources && s in t.tests && s in t'.tests
              && t'.sources[s] == t.sources[s] && t'.tests[s] == t.tests[s]
              && Derive(t', unit', db', s) == Derive(t, unit, db, s)
  {
    var p := Created(t, unit, db, sources).value;
    forall s | s in selected
      ensures s in sources && Derive(t', unit', db', s).Some? && Derive(t', unit', db', s) == Derive(t, unit, db, s)
    {
      var i :| 0 <= i < |selected| && selected[i] == s;
      assert Agrees(t', unit', db', p, selected[i]);
      var rec := Derive(t', unit', db', s).value;
      var k :| 0 <= k < |p.records| && p.records[k] == rec;
      assert p.records[k] == Derive(t, unit, db, sources[k]).value;
      assert sources[k] == s;
    }
  }

  /** A log proves these tests to the observer: no timeout marker, no malformed line, every one of them ran. */
  predicate RanClean(log: Log, tests: seq<string>) {
    !TimedOut(log) && !Malformed(log) && forall n | n in tests :: Seen(log, n, Run)
  }

  lemma ObservedIff(log: Log, tests: seq<string>)
    ensures !Infrastructure(Observation(log, tests)) <==> RanClean(log, tests)
    ensures !Infrastructure(Observation(log, tests)) ==>
              Observation(log, tests).Passed? || Observation(log, tests).Skipped?
    ensures Observation(log, tests).Passed? <==> RanClean(log, tests) && exists n | n in tests :: Seen(log, n, Pass)
  {
    var names := Names(tests);
    var missing, passed := Without(log, names, Run), With(log, names, Pass);
    if missing != {} {
      var n :| n in missing;
      assert n in tests && !Seen(log, n, Run);
    } else {
      forall n | n in tests ensures Seen(log, n, Run) { assert n !in missing; }
    }
    if passed != {} {
      var n :| n in passed;
      assert n in tests && Seen(log, n, Pass);
    } else {
      forall n | n in tests ensures !Seen(log, n, Pass) { assert n !in passed; }
    }
  }

  /** The logs prove a source exactly when it is known, neither log timed out or is malformed, every declared
      test ran in both, and at least one passed against the database; the others need not pass anywhere. */
  lemma ProvedIff(t: Tree, unit: Log, db: Log, source: string)
    ensures Derive(t, unit, db, source).Some? <==>
            && source in t.sources && source in t.tests
            && RanClean(unit, t.tests[source]) && RanClean(db, t.tests[source])
            && exists n | n in t.tests[source] :: Seen(db, n, Pass)
  {
    if source in t.sources && source in t.tests {
      ObservedIff(unit, t.tests[source]);
      ObservedIff(db, t.tests[source]);
    }
  }

  /** So acceptance stands for exactly that, for every selected source. */
  lemma AcceptedMeansProved(t: Tree, unit: Log, db: Log, p: Payload, selected: seq<string>, source: string)
    requires Accepts(t, unit, db, p, selected) && source in selected
    ensures source in t.sources && source in t.tests
    ensures RanClean(unit, t.tests[source]) && RanClean(db, t.tests[source])
    ensures exists n | n in t.tests[source] :: Seen(db, n, Pass)
  {
    var i :| 0 <= i < |selected| && selected[i] == source;
    assert Agrees(t, unit, db, p, selected[i]);
    ProvedIff(t, unit, db, source);
  }

  function LineOf(test: string, action: Action): Line {
    Line(false, Says(Event(test, action)))
  }

  /** Two declared tests; `b` runs in both logs and passes in neither. */
  function HalfPassed(a: string, b: string): (Log, Log) {
    ([LineOf(a, Run), LineOf(b, Run)], [LineOf(a, Run), LineOf(a, Pass), LineOf(b, Run)])
  }

  /** An accepted source with a declared test that passed in no log. */
  lemma AcceptedWithoutAllPassing(candidate: string)
    requires IsCommit(candidate)
    ensures var t := Tree(candidate, true, "", map["s.go" := ""], map["s.go" := ["A", "B"]]);
            var (unit, db) := HalfPassed("A", "B");
            && Created(t, unit, db, ["s.go"]).Some?
            && Accepts(t, unit, db, Created(t, unit, db, ["s.go"]).value, ["s.go"])
            && !Seen(unit, "B", Pass) && !Seen(db, "B", Pass)
  {
    var t := Tree(candidate, true, "", map["s.go" := ""], map["s.go" := ["A", "B"]]);
    var (unit, db) := HalfPassed("A", "B");
    HalfPassedSeen("A", "B");
    assert "A" in t.tests["s.go"];
    ProvedIff(t, unit, db, "s.go");
    VerifyAfterCreate(t, unit, db, ["s.go"], ["s.go"]);
  }

  lemma HalfPassedSeen(a: string, b: string)
    requires a != b && '/' !in a && '/' !in b
    ensures var (unit, db) := HalfPassed(a, b);
            && !TimedOut(unit) && !TimedOut(db) && !Malformed(unit) && !Malformed(db)
            && Seen(unit, a, Run) && Seen(unit, b, Run) && Seen(db, a, Run) && Seen(db, b, Run) && Seen(db, a, Pass)
            && !Seen(unit, b, Pass) && !Seen(db, b, Pass)
  {
    var (unit, db) := HalfPassed(a, b);
    PlainRoot(a);
    PlainRoot(b);
    assert Shows(unit[0], a, Run) && Shows(unit[1], b, Run);
    assert Shows(db[0], a, Run) && Shows(db[1], a, Pass) && Shows(db[2], b, Run);
  }

  lemma PlainRoot(name: string)
    requires '/' !in name
    ensures RootTest(name) == name
  {
    assert forall i | 0 <= i < |name| :: name[i] in name;
  }

  /** A payload is accepted exactly when creating a cache for the selected sources here and now succeeds, its
      header and digests are those of the payload, and its records are among the payload's; which must have
      records at all, and never two for one source. */
  lemma AcceptsIff(t: Tree, unit: Log, db: Log, p: Payload, selected: seq<string>)
    ensures Accepts(t, unit, db, p, selected) <==>
            && p.records != [] && DistinctSources(p.records)
            && Created(t, unit, db, selected).Some?
            && var again := Created(t, unit, db, selected).value;
               p.(records := []) == again.(records := []) && forall r | r in again.records :: r in p.records
  {
    if Created(t, unit, db, selected).Some? {
      var again := Created(t, unit, db, selected).value;
      forall i | 0 <= i < |selected|
        ensures again.records[i] in again.records && Derive(t, unit, db, selected[i]) == Some(again.records[i])
      {
      }
    }
  }

  /** What a record says: the source, the digest of its text, its tests and their pattern, the tests that passed
      against the database, and of the unit log the tests that passed or, when none did, those that ran. */
  lemma RecordMeaning(t: Tree, unit: Log, db: Log, source: string)
    requires Derive(t, unit, db, source).Some?
    ensures var rec, names := Derive(t, unit, db, source).value, Names(t.tests[source]);
            var passed := Reported(unit, names, Pass);
            && rec.source == source && rec.sourceSha == Sha(t.sources[source]) && rec.expected == t.tests[source]
            && rec.selector == Selector(t.tests[source])
            && rec.db == Passed(Reported(db, names, Pass)) && rec.db.names != {}
            && rec.unit == if passed != {} then Passed(passed) else Skipped(Reported(unit, names, Run))
  {
    ProvedIff(t, unit, db, source);
    SuccessMeaning(unit, Names(t.tests[source]), AllRun);
    SuccessMeaning(db, Names(t.tests[source]), AllRun);
  }
}
