/** The latency atlas: one stage per catalogue row, measured at the bind commit or honestly unmeasured. */
module Atlas {
  import opened Common
  import opened AtlasCells

  /** A catalogue row: a stage that is always emitted, with the reason it gives when unmeasured. */
  datatype Row = Row(id: string, name: string, harness: Option<string>, reason: string)

  const ATLAS_KIND := "merc_latency_atlas"

  /** Keys of a measurements object that wrap it and are no stage ids. */
  predicate IsWrapper(k: Key) {
    || k.Wrapper? || k == Kind || k == Head || k == Stages || k == SourceCommit || k == ExpectedCommit
    || k == CandidateCommit || k == Commit || k == ProducerIdentity
  }

  const WRAPPERS: set<string> :=
    { "schema_version", "kind", "binding_status", "head", "honesty", "stages", "source_commit", "expected_commit",
      "candidate_commit", "commit", "produced_by", "producer_identity", "missing_identity_fields", "generated_from",
      "scales", "instrumentation_gaps", "structural_risks" }

  /** What an atlas has: its stages in order, the columns of each, and the key texts that are no stage ids. */
  datatype Catalog = Catalog(rows: seq<Row>, metrics: seq<Metric>, optionals: seq<Optional>, wrappers: set<string>)

  /** Stage ids are distinct and no wrapper keys, every row has a reason, and every column is listed. */
  ghost predicate ValidCatalog(cat: Catalog) {
    && (forall i | 0 <= i < |cat.rows| :: cat.rows[i].reason != "" && cat.rows[i].id !in cat.wrappers)
    && (forall i, j | 0 <= i < j < |cat.rows| :: cat.rows[i].id != cat.rows[j].id)
    && AllColumns(cat)
  }

  ghost predicate AllColumns(cat: Catalog) {
    (forall m :: m in cat.metrics) && (forall o :: o in cat.optionals)
  }

  // ---------------------------------------------------------------- stages

  function HarnessJson(h: Option<string>, missing: Json): Json {
    if h.Some? then Str(h.value) else missing
  }

  /** The metric columns of a stage: the cell's number, or UNMEASURED. */
  function MetricOut(cell: Cell, m: Metric): Json {
    if MetricOf(Obj(cell), m).Num? then MetricOf(Obj(cell), m) else Str(UNMEASURED)
  }

  function AddMetrics(stage: Cell, cell: Cell, ms: seq<Metric>): Cell {
    if ms == [] then stage else
    AddMetrics(stage, cell, ms[..|ms| - 1])[MetricKey(ms[|ms| - 1]) := MetricOut(cell, ms[|ms| - 1])]
  }

  function AddOptionals(stage: Cell, cell: Cell, os: seq<Optional>): Cell {
    if os == [] then stage else
    var rest := AddOptionals(stage, cell, os[..|os| - 1]);
    var k := OptionalKey(os[|os| - 1]);
    if Blank(Field(cell, k)) then rest else rest[k := cell[k]]
  }

  function StageHead(row: Row, status: string, commit: string, harness: Json, reason: Json): Cell {
    map[StageId := Str(row.id), Name := Str(row.name), Status := Str(status), SourceCommit := Str(commit),
        Harness := harness, Reason := reason]
  }

  function UnmeasuredHead(row: Row): Cell {
    StageHead(row, UNMEASURED, UNMEASURED, HarnessJson(row.harness, Str(UNMEASURED)), Str(row.reason))
  }

  function UnmeasuredStage(cat: Catalog, row: Row): Cell {
    AddMetrics(UnmeasuredHead(row), map[], cat.metrics)
  }

  predicate Readable(cell: Cell, ms: seq<Metric>) {
    forall m | m in ms :: MetricOf(Obj(cell), m).Num? || Blank(MetricOf(Obj(cell), m))
  }

  predicate AnyNumber(cell: Cell, ms: seq<Metric>) {
    exists m | m in ms :: MetricOf(Obj(cell), m).Num?
  }

  function MeasuredHead(row: Row, cell: Cell, candidate: string): Cell {
    StageHead(row, MEASURED, candidate, if Harness in cell then cell[Harness] else HarnessJson(row.harness, Null), Null)
  }

  function MeasuredCell(cat: Catalog, row: Row, cell: Cell, candidate: string): Cell {
    AddOptionals(AddMetrics(MeasuredHead(row, cell, candidate), cell, cat.metrics), cell, cat.optionals)
  }

  function MeasuredStage(cat: Catalog, row: Row, cell: Cell, candidate: string): Result<Cell, AtlasError> {
    if Readable(cell, cat.metrics) && AnyNumber(cell, cat.metrics) then Ok(MeasuredCell(cat, row, cell, candidate))
    else Err(Invalid)
  }

  lemma MetricUnfold(head: Cell, cell: Cell, ms: seq<Metric>, i: nat)
    requires i < |ms|
    ensures AddMetrics(head, cell, ms[..i + 1]) ==
            AddMetrics(head, cell, ms[..i])[MetricKey(ms[i]) := MetricOut(cell, ms[i])]
    ensures var value := MetricOf(Obj(cell), ms[i]);
            && (Readable(cell, ms[..i + 1]) <==> Readable(cell, ms[..i]) && (value.Num? || Blank(value)))
            && (AnyNumber(cell, ms[..i + 1]) <==> AnyNumber(cell, ms[..i]) || value.Num?)
  {
    var more := ms[..i + 1];
    TakeSnoc(ms, i + 1);
    assert more[..i] == ms[..i] && more[i] == ms[i];
    assert forall m :: m in more <==> m in ms[..i] || m == ms[i];
  }

  method FillMetrics(head: Cell, cell: Cell, ms: seq<Metric>) returns (r: Option<Cell>)
    ensures r.Some? <==> Readable(cell, ms) && AnyNumber(cell, ms)
    ensures r.Some? ==> r.value == AddMetrics(head, cell, ms)
  {
    var stage := head;
    var anyNumber := false;
    for i := 0 to |ms|
      invariant stage == AddMetrics(head, cell, ms[..i])
      invariant Readable(cell, ms[..i]) && (anyNumber <==> AnyNumber(cell, ms[..i]))
    {
      MetricUnfold(head, cell, ms, i);
      var value := MetricOf(Obj(cell), ms[i]);
      if Blank(value) {
        stage := stage[MetricKey(ms[i]) := Str(UNMEASURED)];
        continue;
      }
      if !value.Num? {
        assert ms[i] in ms;
        return None;
      }
      stage := stage[MetricKey(ms[i]) := value];
      anyNumber := true;
    }
    assert ms[..|ms|] == ms;
    return if anyNumber then Some(stage) else None;
  }

  method BuildMeasuredStage(cat: Catalog, row: Row, cell: Cell, candidate: string) returns (r: Result<Cell, AtlasError>)
    ensures r == MeasuredStage(cat, row, cell, candidate)
  {
    var head := MeasuredHead(row, cell, candidate);
    var filled := FillMetrics(head, cell, cat.metrics);
    if filled.None? {
      return Err(Invalid);
    }
    var stage := filled.value;
    for i := 0 to |cat.optionals|
      invariant stage == AddOptionals(AddMetrics(head, cell, cat.metrics), cell, cat.optionals[..i])
    {
      var k := OptionalKey(cat.optionals[i]);
      assert cat.optionals[..i + 1][..i] == cat.optionals[..i];
      if k in cell && !Blank(cell[k]) {
        stage := stage[k := cell[k]];
      }
    }
    assert cat.optionals[..|cat.optionals|] == cat.optionals;
    return Ok(stage);
  }

  // ---------------------------------------------------------------- what a stage holds

  lemma {:induction false} AddMetricsFields(stage: Cell, cell: Cell, ms: seq<Metric>)
    ensures var r := AddMetrics(stage, cell, ms);
            && (forall k: Key | !k.MetricKey? :: (k in r <==> k in stage) && Field(r, k) == Field(stage, k))
            && (forall m | m in ms :: MetricKey(m) in r && r[MetricKey(m)] == MetricOut(cell, m))
            && (forall m | m !in ms ::
                (MetricKey(m) in r <==> MetricKey(m) in stage) && Field(r, MetricKey(m)) == Field(stage, MetricKey(m)))
  {
    if ms != [] {
      AddMetricsFields(stage, cell, ms[..|ms| - 1]);
      assert ms == ms[..|ms| - 1] + [ms[|ms| - 1]];
    }
  }

  lemma {:induction false} AddOptionalsFields(stage: Cell, cell: Cell, os: seq<Optional>)
    ensures var r := AddOptionals(stage, cell, os);
            && (forall k: Key | !k.OptionalKey? :: (k in r <==> k in stage) && Field(r, k) == Field(stage, k))
            && (forall o | o in os && !Blank(Field(cell, OptionalKey(o))) ::
                  OptionalKey(o) in r && r[OptionalKey(o)] == cell[OptionalKey(o)])
            && (forall o | o !in os || Blank(Field(cell, OptionalKey(o))) ::
                  (OptionalKey(o) in r <==> OptionalKey(o) in stage)
                    && Field(r, OptionalKey(o)) == Field(stage, OptionalKey(o)))
  {
    if os != [] {
      AddOptionalsFields(stage, cell, os[..|os| - 1]);
      assert os == os[..|os| - 1] + [os[|os| - 1]];
    }
  }

  lemma {:induction false} AddMetricsSame(stage: Cell, a: Cell, b: Cell, ms: seq<Metric>)
    requires forall m | m in ms :: MetricOut(a, m) == MetricOut(b, m)
    ensures AddMetrics(stage, a, ms) == AddMetrics(stage, b, ms)
  {
    if ms != [] {
      AddMetricsSame(stage, a, b, ms[..|ms| - 1]);
      assert ms[|ms| - 1] in ms;
    }
  }

  lemma {:induction false} AddOptionalsSame(stage: Cell, a: Cell, b: Cell, os: seq<Optional>)
    requires forall o | o in os :: Blank(Field(a, OptionalKey(o))) == Blank(Field(b, OptionalKey(o)))
    requires forall o | o in os && !Blank(Field(a, OptionalKey(o))) ::
             Field(a, OptionalKey(o)) == Field(b, OptionalKey(o))
    ensures AddOptionals(stage, a, os) == AddOptionals(stage, b, os)
  {
    if os != [] {
      AddOptionalsSame(stage, a, b, os[..|os| - 1]);
      assert os[|os| - 1] in os;
    }
  }

  predicate IsHead(k: Key) {
    k == StageId || k == Name || k == Status || k == SourceCommit || k == Harness || k == Reason
  }

  /** Everything in a measured stage: its head, a number or UNMEASURED per metric, the cell's non-blank extras. */
  lemma MeasuredFields(cat: Catalog, row: Row, cell: Cell, candidate: string)
    requires AllColumns(cat)
    ensures var s := MeasuredCell(cat, row, cell, candidate);
            && (forall k: Key | IsHead(k) :: k in s && s[k] == MeasuredHead(row, cell, candidate)[k])
            && (forall k: Key | !IsHead(k) && !k.MetricKey? && !k.OptionalKey? :: k !in s)
            && (forall m :: MetricKey(m) in s && s[MetricKey(m)] == MetricOut(cell, m))
            && (forall o :: OptionalKey(o) in s <==> !Blank(Field(cell, OptionalKey(o))))
            && (forall o | OptionalKey(o) in s :: s[OptionalKey(o)] == cell[OptionalKey(o)])
  {
    var head := MeasuredHead(row, cell, candidate);
    HeadKeys(row, MEASURED, candidate, head[Harness], Null);
    AddMetricsFields(head, cell, cat.metrics);
    var mid := AddMetrics(head, cell, cat.metrics);
    assert forall o :: OptionalKey(o) !in mid;
    AddOptionalsFields(mid, cell, cat.optionals);
    var s := MeasuredCell(cat, row, cell, candidate);
    forall k: Key | IsHead(k) ensures k in s && s[k] == head[k] {
      assert k in mid && Field(mid, k) == Field(head, k);
    }
    forall m ensures MetricKey(m) in s && s[MetricKey(m)] == MetricOut(cell, m) {
      assert m in cat.metrics && Field(s, MetricKey(m)) == Field(mid, MetricKey(m));
    }
    forall o ensures OptionalKey(o) in s <==> !Blank(Field(cell, OptionalKey(o))) {
      assert o in cat.optionals;
    }
  }

  /** The head of a measured stage: the row's id and name, the candidate, no reason, and the cell's harness or
      else the row's. */
  lemma MeasuredHeadFields(cat: Catalog, row: Row, cell: Cell, candidate: string)
    requires AllColumns(cat)
    ensures var s := MeasuredCell(cat, row, cell, candidate);
            && Field(s, StageId) == Str(row.id) && Field(s, Name) == Str(row.name)
            && Field(s, Status) == Str(MEASURED) && Field(s, SourceCommit) == Str(candidate) && Field(s, Reason) == Null
            && Field(s, Harness) == (if Harness in cell then cell[Harness]
                                     else if row.harness.Some? then Str(row.harness.value) else Null)
  {
    MeasuredFields(cat, row, cell, candidate);
    HeadFields(row, cell, candidate);
  }

  lemma HeadFields(row: Row, cell: Cell, candidate: string)
    ensures var h := MeasuredHead(row, cell, candidate);
            && h[StageId] == Str(row.id) && h[Name] == Str(row.name) && h[Status] == Str(MEASURED)
            && h[SourceCommit] == Str(candidate) && h[Reason] == Null
            && h[Harness] == (if Harness in cell then cell[Harness]
                              else if row.harness.Some? then Str(row.harness.value) else Null)
  {
  }

  lemma HeadKeys(row: Row, status: string, commit: string, harness: Json, reason: Json)
    ensures forall k: Key :: k in StageHead(row, status, commit, harness, reason) <==> IsHead(k)
  {
  }

  lemma UnmeasuredMetric(cat: Catalog, row: Row, m: Metric)
    requires AllColumns(cat)
    ensures MetricKey(m) in UnmeasuredStage(cat, row) && UnmeasuredStage(cat, row)[MetricKey(m)] == Str(UNMEASURED)
  {
    assert m in cat.metrics && MetricOut(map[], m) == Str(UNMEASURED);
    AddMetricsFields(UnmeasuredHead(row), map[], cat.metrics);
  }

  lemma UnmeasuredOther(cat: Catalog, row: Row, k: Key)
    requires !k.MetricKey?
    ensures k in UnmeasuredStage(cat, row) <==> IsHead(k)
    ensures IsHead(k) ==> k in UnmeasuredHead(row) && UnmeasuredStage(cat, row)[k] == UnmeasuredHead(row)[k]
  {
    AddMetricsFields(UnmeasuredHead(row), map[], cat.metrics);
    HeadKeys(row, UNMEASURED, UNMEASURED, HarnessJson(row.harness, Str(UNMEASURED)), Str(row.reason));
    assert Field(UnmeasuredStage(cat, row), k) == Field(UnmeasuredHead(row), k);
  }

  /** Everything in an unmeasured stage: the row's head with its reason, and UNMEASURED for every metric. */
  lemma UnmeasuredFields(cat: Catalog, row: Row)
    requires AllColumns(cat)
    ensures var s := UnmeasuredStage(cat, row);
            && (forall k: Key :: k in s <==> IsHead(k) || k.MetricKey?)
            && (forall m :: s[MetricKey(m)] == Str(UNMEASURED))
            && s[StageId] == Str(row.id) && s[Status] == Str(UNMEASURED) && s[SourceCommit] == Str(UNMEASURED)
            && s[Reason] == Str(row.reason) && s[Name] == Str(row.name)
            && s[Harness] == (if row.harness.Some? then Str(row.harness.value) else Str(UNMEASURED))
  {
    var s := UnmeasuredStage(cat, row);
    forall m ensures MetricKey(m) in s && s[MetricKey(m)] == Str(UNMEASURED) { UnmeasuredMetric(cat, row, m); }
    forall k: Key | !k.MetricKey? ensures k in s <==> IsHead(k) { UnmeasuredOther(cat, row, k); }
    UnmeasuredOther(cat, row, StageId);
    UnmeasuredOther(cat, row, Status);
    UnmeasuredOther(cat, row, SourceCommit);
    UnmeasuredOther(cat, row, Reason);
    UnmeasuredOther(cat, row, Name);
    UnmeasuredOther(cat, row, Harness);
  }

  /** A measured stage, taken as a cell again, claims the candidate, carries a value, and yields itself. */
  lemma MeasuredRefeeds(cat: Catalog, row: Row, cell: Cell, candidate: string)
    requires AllColumns(cat) && IsCommit(candidate) && MeasuredStage(cat, row, cell, candidate).Ok?
    ensures var s := MeasuredCell(cat, row, cell, candidate);
            && MeasurementCommit(Obj(s)) == Some(candidate) && HasValue(Obj(s)) && Claimed(s) == MEASURED
            && MeasuredStage(cat, row, s, candidate) == Ok(s)
  {
    var s := MeasuredCell(cat, row, cell, candidate);
    MeasuredFields(cat, row, cell, candidate);
    assert s[SourceCommit] == Str(candidate) && s[Status] == Str(MEASURED);
    OwnCommit(s, candidate);
    UnmeasuredIsNoCommit();
    MeasuredYieldsItself(cat, row, cell, candidate);
  }

  lemma MeasuredYieldsItself(cat: Catalog, row: Row, cell: Cell, candidate: string)
    requires AllColumns(cat) && MeasuredStage(cat, row, cell, candidate).Ok?
    ensures var s := MeasuredCell(cat, row, cell, candidate); MeasuredStage(cat, row, s, candidate) == Ok(s)
  {
    var s := MeasuredCell(cat, row, cell, candidate);
    MeasuredFields(cat, row, cell, candidate);
    forall m ensures MetricOf(Obj(s), m) == MetricOut(cell, m) {
      assert Supplied(s, MetricKey(m));
    }
    var m :| m in cat.metrics && MetricOf(Obj(cell), m).Num?;
    assert MetricOf(Obj(s), m).Num?;
    assert MeasuredHead(row, s, candidate) == MeasuredHead(row, cell, candidate);
    AddMetricsSame(MeasuredHead(row, s, candidate), s, cell, cat.metrics);
    AddOptionalsSame(AddMetrics(MeasuredHead(row, cell, candidate), cell, cat.metrics), s, cell, cat.optionals);
  }

  /** An unmeasured stage, taken as a cell again, claims neither commit nor value. */
  lemma UnmeasuredRefeeds(cat: Catalog, row: Row)
    requires AllColumns(cat)
    ensures var s := UnmeasuredStage(cat, row);
            MeasurementCommit(Obj(s)) == None && !HasValue(Obj(s)) && Claimed(s) == UNMEASURED
  {
    var s := UnmeasuredStage(cat, row);
    UnmeasuredFields(cat, row);
    forall k | k in s ensures !Carries(k, s[k]) && !NamesCommit(k) {
      if k.MetricKey? { assert s[MetricKey(k.m)] == Str(UNMEASURED); }
    }
    NoCommit(s);
    NoValue(s);
  }

  // ---------------------------------------------------------------- the producer's own catalogue

  const STAGE_IDS: seq<string> :=
    [ "project_analysis", "quote", "market_selection", "lease", "runtime_startup", "artifact_transfer",
      "model_load", "prefill", "decode", "verification", "settlement", "control_plane_overhead" ]

  lemma AllListed(m: Metric, o: Optional)
    ensures m in METRICS && o in OPTIONALS
  {
    match m
    case Latency(p) => match p { case P50 => assert METRICS[0] == m; case P95 => assert METRICS[1] == m;
      case P99 => assert METRICS[2] == m; }
    case Throughput => assert METRICS[3] == m;
    case Cpu => assert METRICS[4] == m;
    case Ram => assert METRICS[5] == m;
    case GpuMemory => assert METRICS[6] == m;
    case Network => assert METRICS[7] == m;
    case DbTime => assert METRICS[8] == m;
    case Allocations => assert METRICS[9] == m;
    case FailureRate => assert METRICS[10] == m;
  }

  lemma StageIdsDistinct(i: nat, j: nat)
    requires i < j < |STAGE_IDS|
    ensures STAGE_IDS[i] != STAGE_IDS[j]
  {
    var a, b := STAGE_IDS[i], STAGE_IDS[j];
    assert |a| != |b| || a[0] != b[0];
  }

  lemma StageIdIsNoWrapper(i: nat)
    requires i < |STAGE_IDS|
    ensures STAGE_IDS[i] !in WRAPPERS
  {
    var a := STAGE_IDS[i];
    forall w | w in WRAPPERS ensures |a| != |w| || a[0] != w[0] { }
  }

  /** The twelve stages with the producer's own columns and wrapper keys form a valid catalogue. */
  lemma ProducerCatalogIsValid(rows: seq<Row>)
    requires |rows| == |STAGE_IDS| && forall i | 0 <= i < |rows| :: rows[i].id == STAGE_IDS[i] && rows[i].reason != ""
    ensures ValidCatalog(Catalog(rows, METRICS, OPTIONALS, WRAPPERS))
  {
    forall m ensures m in METRICS { AllListed(m, Samples); }
    forall o ensures o in OPTIONALS { AllListed(Cpu, o); }
    forall i | 0 <= i < |rows| ensures rows[i].id !in WRAPPERS { StageIdIsNoWrapper(i); }
    forall i, j | 0 <= i < j < |rows| ensures rows[i].id != rows[j].id { StageIdsDistinct(i, j); }
  }
}
