/** What a successful atlas is made of, and what happens when it is fed back to the producer. */
module AtlasTheorems {
  import opened Common
  import opened AtlasCells
  import opened Atlas
  import opened AtlasBuild

  // ---------------------------------------------------------------- honest stages

  /** An emitted stage is the row's unmeasured stage, or it was measured at the candidate: its cell's
      resolved commit is the candidate, it holds at least one number, and every number it holds stands in
      the cell's measurement chain under that metric or its alias. */
  ghost predicate HonestStage(cat: Catalog, row: Row, cells: map<string, Cell>, candidate: string, s: Cell) {
    || (s == UnmeasuredStage(cat, row) && (row.id in cells ==> !HasValue(Obj(cells[row.id]))))
    || (&& row.id in cells && s == MeasuredCell(cat, row, cells[row.id], candidate)
        && MeasuredStage(cat, row, cells[row.id], candidate).Ok?
        && MeasurementCommit(Obj(cells[row.id])) == Some(candidate)
        && Field(s, Status) == Str(MEASURED) && Field(s, SourceCommit) == Str(candidate)
        && (exists m :: Field(s, MetricKey(m)).Num?)
        && (forall m | Field(s, MetricKey(m)).Num? :: InChain(Obj(cells[row.id]), m, Field(s, MetricKey(m)))))
  }

  lemma StageIsHonest(cat: Catalog, row: Row, cells: map<string, Cell>, candidate: string)
    requires AllColumns(cat) && StageFor(cat, row, cells, candidate).Ok?
    ensures HonestStage(cat, row, cells, candidate, StageFor(cat, row, cells, candidate).value)
  {
    if row.id in cells && HasValue(Obj(cells[row.id])) {
      MeasuredIsTraced(cat, row, cells[row.id], candidate);
    }
  }

  lemma MeasuredIsTraced(cat: Catalog, row: Row, cell: Cell, candidate: string)
    requires AllColumns(cat) && MeasuredStage(cat, row, cell, candidate).Ok?
    ensures var s := MeasuredCell(cat, row, cell, candidate);
            && Field(s, Status) == Str(MEASURED) && Field(s, SourceCommit) == Str(candidate)
            && (exists m :: Field(s, MetricKey(m)).Num?)
            && (forall m | Field(s, MetricKey(m)).Num? :: InChain(Obj(cell), m, Field(s, MetricKey(m))))
  {
    var s := MeasuredCell(cat, row, cell, candidate);
    MeasuredFields(cat, row, cell, candidate);
    assert s[Status] == Str(MEASURED) && s[SourceCommit] == Str(candidate);
    var m :| m in cat.metrics && MetricOf(Obj(cell), m).Num?;
    assert Field(s, MetricKey(m)).Num?;
    forall m | Field(s, MetricKey(m)).Num? ensures InChain(Obj(cell), m, Field(s, MetricKey(m))) {
      MetricComesFromChain(Obj(cell), m);
    }
  }

  lemma SecondPassHolds(cat: Catalog, row: Row, cells: map<string, Cell>, candidate: string, s: Cell)
    requires AllColumns(cat) && row.reason != "" && HonestStage(cat, row, cells, candidate, s)
    ensures SecondPass(cat, s, candidate)
    ensures Field(s, StageId) == Str(row.id)
    ensures Field(s, Status) == Str(MEASURED) || Field(s, Status) == Str(UNMEASURED)
  {
    if s == UnmeasuredStage(cat, row) {
      UnmeasuredPasses(cat, row, candidate);
    } else {
      MeasuredPasses(cat, row, cells[row.id], candidate);
    }
  }

  lemma UnmeasuredPasses(cat: Catalog, row: Row, candidate: string)
    requires AllColumns(cat) && row.reason != ""
    ensures var s := UnmeasuredStage(cat, row);
            SecondPass(cat, s, candidate) && Field(s, StageId) == Str(row.id) && Field(s, Status) == Str(UNMEASURED)
  {
    UnmeasuredFields(cat, row);
    UnmeasuredIsNoCommit();
  }

  lemma MeasuredPasses(cat: Catalog, row: Row, cell: Cell, candidate: string)
    requires AllColumns(cat)
    ensures var s := MeasuredCell(cat, row, cell, candidate);
            SecondPass(cat, s, candidate) && Field(s, StageId) == Str(row.id) && Field(s, Status) == Str(MEASURED)
  {
    MeasuredFields(cat, row, cell, candidate);
    var s := MeasuredCell(cat, row, cell, candidate);
    assert s[Status] == Str(MEASURED) && s[SourceCommit] == Str(candidate) && s[StageId] == Str(row.id);
  }

  ghost predicate HonestStages(cat: Catalog, cells: map<string, Cell>, candidate: string, stages: seq<Cell>) {
    |stages| == |cat.rows| && forall i | 0 <= i < |stages| :: HonestStage(cat, cat.rows[i], cells, candidate, stages[i])
  }

  /** The second pass never fires on what the first pass assembled. */
  lemma SecondPassNeverFires(cat: Catalog, raw: Option<Json>, rawCandidate: string, cells: map<string, Cell>)
    requires ValidCatalog(cat) && NormalCommit(rawCandidate).Some?
    requires Normalize(cat, raw, NormalCommit(rawCandidate).value) == Ok(cells)
    ensures var stages := StagesOf(cat, |cat.rows|, cells, NormalCommit(rawCandidate).value);
            BuildAtlas(cat, raw, rawCandidate) == if stages.Err? then Err(stages.error)
              else Ok(Document(cat, stages.value))
    ensures var stages := StagesOf(cat, |cat.rows|, cells, NormalCommit(rawCandidate).value);
            stages.Ok? ==> HonestStages(cat, cells, NormalCommit(rawCandidate).value, stages.value)
  {
    var candidate := NormalCommit(rawCandidate).value;
    var stages := StagesOf(cat, |cat.rows|, cells, candidate);
    if stages.Ok? {
      forall i | 0 <= i < |cat.rows|
        ensures HonestStage(cat, cat.rows[i], cells, candidate, stages.value[i])
                && SecondPass(cat, stages.value[i], candidate)
      {
        StagesAt(cat, |cat.rows|, cells, candidate, i);
        StageIsHonest(cat, cat.rows[i], cells, candidate);
        SecondPassHolds(cat, cat.rows[i], cells, candidate, stages.value[i]);
      }
    }
  }

  lemma {:induction false} CountsSum(stages: seq<Cell>)
    requires forall i | 0 <= i < |stages| ::
               Field(stages[i], Status) == Str(MEASURED) || Field(stages[i], Status) == Str(UNMEASURED)
    ensures CountStatus(stages, MEASURED) + CountStatus(stages, UNMEASURED) == |stages|
  {
    UnmeasuredIsNoCommit();
    if stages != [] { CountsSum(stages[..|stages| - 1]); }
  }

  /** Every successful atlas: one honest stage per catalogue row, the two counts summing to the catalogue. */
  lemma AtlasIsHonest(cat: Catalog, raw: Option<Json>, rawCandidate: string)
    returns (candidate: string, cells: map<string, Cell>, stages: seq<Cell>)
    requires ValidCatalog(cat) && BuildAtlas(cat, raw, rawCandidate).Ok?
    ensures NormalCommit(rawCandidate) == Some(candidate) && Normalize(cat, raw, candidate) == Ok(cells)
    ensures BuildAtlas(cat, raw, rawCandidate) == Ok(Document(cat, stages))
    ensures HonestStages(cat, cells, candidate, stages)
    ensures CountStatus(stages, MEASURED) + CountStatus(stages, UNMEASURED) == |cat.rows|
  {
    candidate := NormalCommit(rawCandidate).value;
    cells := Normalize(cat, raw, candidate).value;
    SecondPassNeverFires(cat, raw, rawCandidate, cells);
    stages := StagesOf(cat, |cat.rows|, cells, candidate).value;
    forall i | 0 <= i < |stages|
      ensures Field(stages[i], Status) == Str(MEASURED) || Field(stages[i], Status) == Str(UNMEASURED)
    {
      SecondPassHolds(cat, cat.rows[i], cells, candidate, stages[i]);
    }
    CountsSum(stages);
  }

  /** Without measurements the producer always succeeds, and no stage claims one. */
  lemma NothingSuppliedNothingMeasured(cat: Catalog, rawCandidate: string)
    requires ValidCatalog(cat) && NormalCommit(rawCandidate).Some?
    ensures var stages := seq(|cat.rows|, i requires 0 <= i < |cat.rows| => UnmeasuredStage(cat, cat.rows[i]));
            BuildAtlas(cat, None, rawCandidate) == Ok(Document(cat, stages)) && CountStatus(stages, MEASURED) == 0
  {
    var stages := seq(|cat.rows|, i requires 0 <= i < |cat.rows| => UnmeasuredStage(cat, cat.rows[i]));
    StagesFrom(cat, |cat.rows|, map[], NormalCommit(rawCandidate).value, stages);
    assert stages[..|stages|] == stages;
    SecondPassNeverFires(cat, None, rawCandidate, map[]);
    forall i | 0 <= i < |stages| ensures Field(stages[i], Status) == Str(UNMEASURED) {
      UnmeasuredPasses(cat, cat.rows[i], NormalCommit(rawCandidate).value);
    }
    NoneMeasured(stages);
  }

  lemma {:induction false} NoneMeasured(stages: seq<Cell>)
    requires forall i | 0 <= i < |stages| :: Field(stages[i], Status) == Str(UNMEASURED)
    ensures CountStatus(stages, MEASURED) == 0
  {
    UnmeasuredIsNoCommit();
    if stages != [] { NoneMeasured(stages[..|stages| - 1]); }
  }

  // ---------------------------------------------------------------- when the producer succeeds

  /** A supplied cell is taken: it is fresh, not a value labelled UNMEASURED, and when it carries a value every
      metric is a number or blank and one is a number. */
  predicate Takes(cat: Catalog, cell: Cell, candidate: string) {
    var commit, has := MeasurementCommit(Obj(cell)), HasValue(Obj(cell));
    && (commit == Some(candidate) || (commit == None && !has))
    && (has ==> Claimed(cell) != UNMEASURED && Readable(cell, cat.metrics) && AnyNumber(cell, cat.metrics))
  }

  /** A row without a cell is always emitted, unmeasured; one with a cell exactly when the cell is taken, and
      then measured exactly when the cell carries a value. */
  lemma StageForIff(cat: Catalog, row: Row, cells: map<string, Cell>, candidate: string)
    ensures var r := StageFor(cat, row, cells, candidate);
            && (r.Ok? <==> (row.id in cells ==> Takes(cat, cells[row.id], candidate)))
            && (r.Ok? ==> r.value == if row.id in cells && HasValue(Obj(cells[row.id]))
                                     then MeasuredCell(cat, row, cells[row.id], candidate)
                                     else UnmeasuredStage(cat, row))
  {
  }

  lemma {:induction false} StagesOfIff(cat: Catalog, n: nat, cells: map<string, Cell>, candidate: string)
    requires n <= |cat.rows|
    ensures StagesOf(cat, n, cells, candidate).Ok? <==>
            forall i | 0 <= i < n && cat.rows[i].id in cells :: Takes(cat, cells[cat.rows[i].id], candidate)
  {
    if n > 0 {
      StagesOfIff(cat, n - 1, cells, candidate);
      StageForIff(cat, cat.rows[n - 1], cells, candidate);
    }
  }

  /** The producer succeeds exactly when the candidate has forty characters, the measurements can be read, and
      the cell of every stage is taken. */
  lemma BuildsIff(cat: Catalog, raw: Option<Json>, rawCandidate: string)
    requires ValidCatalog(cat)
    ensures BuildAtlas(cat, raw, rawCandidate).Ok? <==>
            && NormalCommit(rawCandidate).Some?
            && var candidate := NormalCommit(rawCandidate).value;
               var cells := Normalize(cat, raw, candidate);
               cells.Ok? && forall i | 0 <= i < |cat.rows| && cat.rows[i].id in cells.value ::
                              Takes(cat, cells.value[cat.rows[i].id], candidate)
  {
    if NormalCommit(rawCandidate).Some? {
      var candidate := NormalCommit(rawCandidate).value;
      var cells := Normalize(cat, raw, candidate);
      if cells.Ok? {
        SecondPassNeverFires(cat, raw, rawCandidate, cells.value);
        StagesOfIff(cat, |cat.rows|, cells.value, candidate);
      }
    }
  }

  /** The candidate may be padded with blanks and written in capitals. */
  lemma CandidateIsNormalised(sha: string)
    requires IsCommit(sha)
    ensures NormalCommit(sha) == NormalCommit(" " + Upper(sha)) == Some(sha)
  {
    LowerFixed(sha);
    WrappedCommit(sha);
  }

  /** What the second pass refuses in a stage of whatever origin: a measured one of another commit, and one that
      claims to be unmeasured but has a commit or any metric, or gives no reason; any other status as well. */
  lemma SecondPassRefuses(cat: Catalog, stage: Cell, candidate: string)
    ensures SecondPass(cat, stage, candidate) ==>
              Field(stage, Status) == Str(MEASURED) || Field(stage, Status) == Str(UNMEASURED)
    ensures Field(stage, Status) == Str(MEASURED) ==>
              (SecondPass(cat, stage, candidate) <==> Field(stage, SourceCommit) == Str(candidate))
    ensures Field(stage, Status) == Str(UNMEASURED) ==>
              (!SecondPass(cat, stage, candidate) <==>
               || Field(stage, SourceCommit) != Str(UNMEASURED)
               || Field(stage, Reason) == Null || Field(stage, Reason) == Str("")
               || exists m | m in cat.metrics :: Field(stage, MetricKey(m)) != Str(UNMEASURED))
  {
    UnmeasuredIsNoCommit();
  }

  /** The counts in the document: the measured and the unmeasured stages sum to the catalogue, whose ids it lists. */
  lemma DocumentCountsSum(cat: Catalog, raw: Option<Json>, rawCandidate: string)
    requires ValidCatalog(cat) && BuildAtlas(cat, raw, rawCandidate).Ok?
    ensures var doc := BuildAtlas(cat, raw, rawCandidate).value;
            var measured, unmeasured := Field(doc, Text("measured_count")), Field(doc, Text("unmeasured_count"));
            && measured.Num? && unmeasured.Num? && measured.n + unmeasured.n == |cat.rows| as real
            && Field(doc, Text("stage_count")) == Num(|cat.rows| as real)
            && Field(doc, Text("stage_ids")).Arr? && |Field(doc, Text("stage_ids")).items| == |cat.rows|
            && forall i | 0 <= i < |cat.rows| :: Field(doc, Text("stage_ids")).items[i] == Str(cat.rows[i].id)
  {
    var _, _, stages := AtlasIsHonest(cat, raw, rawCandidate);
    DocumentCounts(cat, stages);
    DocumentIds(cat, stages);
  }

  lemma DocumentIds(cat: Catalog, stages: seq<Cell>)
    ensures var ids := Field(Document(cat, stages), Text("stage_ids"));
            && ids.Arr? && |ids.items| == |cat.rows|
            && forall i | 0 <= i < |cat.rows| :: ids.items[i] == Str(cat.rows[i].id)
  {
    assert |"measured_count"| == 14 && |"unmeasured_count"| == 16 && |"stage_count"| == 11 && |"stage_ids"| == 9;
  }

  // ---------------------------------------------------------------- the three forms of measurements

  /** These cells as an object keyed by stage id. */
  function Keyless(cells: map<string, Cell>): Cell {
    map k: Key | k in (set id | id in cells :: Text(id)) :: Obj(cells[k.text])
  }

  lemma KeylessIsKnown(cells: map<string, Cell>, ids: set<string>)
    requires cells.Keys <= ids
    ensures KnownCells(Keyless(cells), ids) && CellsOf(Keyless(cells), ids) == cells
  {
    var body := Keyless(cells);
    forall id | id in cells ensures Text(id) in body && body[Text(id)] == Obj(cells[id]) { }
    assert CellsOf(body, ids).Keys == cells.Keys;
  }

  /** Cells given flat and cells given under `stages` are read alike, at any candidate. */
  lemma FlatAndNestedAgree(cat: Catalog, cells: map<string, Cell>, candidate: string)
    requires cells.Keys <= Ids(cat)
    ensures Normalize(cat, Some(Obj(Keyless(cells))), candidate) == Ok(cells)
    ensures Normalize(cat, Some(Obj(map[Stages := Obj(Keyless(cells))])), candidate) == Ok(cells)
  {
    KeylessIsKnown(cells, Ids(cat));
    KeylessHasNoWrapper(cells);
    NormalizeBody(cat, Keyless(cells), Keyless(cells), candidate);
    NormalizeBody(cat, map[Stages := Obj(Keyless(cells))], Keyless(cells), candidate);
  }

  lemma KeylessHasNoWrapper(cells: map<string, Cell>)
    ensures Field(Keyless(cells), Kind) == Null && Field(Keyless(cells), Stages) == Null
  {
  }

  /** The keys that name a commit or an identity beside the stages, and the listed wrapper keys. */
  predicate StandsBeside(k: Key) {
    || k.Wrapper? || k == Head || k == SourceCommit || k == ExpectedCommit || k == CandidateCommit || k == Commit
    || k == ProducerIdentity
  }

  /** Beside the stages such keys may stand, whatever they hold. */
  lemma WrappersAreIgnored(cat: Catalog, cells: map<string, Cell>, k: Key, v: Json, candidate: string)
    requires cells.Keys <= Ids(cat) && StandsBeside(k)
    ensures Normalize(cat, Some(Obj(Keyless(cells)[k := v])), candidate) == Ok(cells)
  {
    KeylessIsKnown(cells, Ids(cat));
    KeylessHasNoWrapper(cells);
    BesideIsKnown(Keyless(cells), k, v, Ids(cat));
    NormalizeBody(cat, Keyless(cells)[k := v], Keyless(cells)[k := v], candidate);
  }

  /** Any other key must be a stage id. */
  lemma UnknownStageIsRefused(cat: Catalog, cells: map<string, Cell>, id: string, v: Json, candidate: string)
    requires id !in Ids(cat)
    ensures Normalize(cat, Some(Obj(Keyless(cells)[Text(id) := v])), candidate) == Err(Invalid)
  {
    var body := Keyless(cells)[Text(id) := v];
    KeylessHasNoWrapper(cells);
    assert Text(id) in body && !KnownKey(body, Ids(cat), Text(id));
    NormalizeRefuses(cat, body, candidate);
  }

  lemma NormalizeRefuses(cat: Catalog, doc: Cell, candidate: string)
    requires Field(doc, Kind) == Null && Field(doc, Stages) == Null && !KnownCells(doc, Ids(cat))
    ensures Normalize(cat, Some(Obj(doc)), candidate) == Err(Invalid)
  {
  }

  lemma BesideIsKnown(body: Cell, k: Key, v: Json, ids: set<string>)
    requires KnownCells(body, ids) && StandsBeside(k)
    ensures KnownCells(body[k := v], ids) && CellsOf(body[k := v], ids) == CellsOf(body, ids)
    ensures Field(body[k := v], Kind) == Field(body, Kind) && Field(body[k := v], Stages) == Field(body, Stages)
  {
  }

  lemma NormalizeBody(cat: Catalog, doc: Cell, body: Cell, candidate: string)
    requires Field(doc, Kind) == Null && KnownCells(body, Ids(cat))
    requires Field(doc, Stages) == Obj(body) || (Field(doc, Stages) == Null && doc == body)
    ensures Normalize(cat, Some(Obj(doc)), candidate) == Ok(CellsOf(body, Ids(cat)))
  {
  }

  // ---------------------------------------------------------------- feeding an atlas back

  /** The binding an emitted atlas is stamped with. */
  function Stamp(doc: Cell, commit: string, identity: Json): Cell {
    doc + map[SourceCommit := Str(commit), Wrapper("produced_by") := Str("ops/scripts/produce-latency-atlas.py"),
              Wrapper("binding_status") := Str("BOUND"), ProducerIdentity := identity]
  }

  /** `d` is `doc` with this commit stamped on it, whatever else was attached. */
  predicate Stamped(doc: Cell, commit: string, d: Cell) {
    && Field(d, SourceCommit) == Str(commit) && Field(d, Stages) == Field(doc, Stages)
    && Field(d, Kind) == Field(doc, Kind)
  }

  lemma StampStamps(doc: Cell, commit: string, identity: Json)
    ensures Stamped(doc, commit, Stamp(doc, commit, identity))
  {
  }

  predicate NamedStages(rows: seq<Row>, stages: seq<Cell>) {
    |stages| == |rows| && forall i | 0 <= i < |rows| :: Field(stages[i], StageId) == Str(rows[i].id)
  }

  /** The first `n` stages, keyed by their row's id, and nothing else. */
  ghost predicate Keyed(rows: seq<Row>, stages: seq<Cell>, n: nat, body: Cell)
    requires n <= |rows| && n <= |stages|
  {
    && (forall i | 0 <= i < n :: Text(rows[i].id) in body && body[Text(rows[i].id)] == Obj(stages[i]))
    && (forall k | k in body :: exists i | 0 <= i < n :: k == Text(rows[i].id))
  }

  lemma {:induction false} ConvertKeys(rows: seq<Row>, stages: seq<Cell>, items: seq<Json>, wrappers: set<string>)
    returns (body: Cell)
    requires NamedStages(rows, stages) && |items| <= |stages|
    requires forall i | 0 <= i < |items| :: items[i] == Obj(stages[i])
    requires forall i | 0 <= i < |rows| :: rows[i].id !in wrappers
    requires forall i, j | 0 <= i < j < |rows| :: rows[i].id != rows[j].id
    ensures Convert(items, wrappers) == Some(body) && Keyed(rows, stages, |items|, body)
  {
    if items == [] {
      body := map[];
    } else {
      var n := |items| - 1;
      var rest := ConvertKeys(rows, stages, items[..n], wrappers);
      assert items == items[..n] + [Obj(stages[n])];
      ConvertSnoc(items[..n], stages[n], rows[n].id, wrappers);
      KeyedSnoc(rows, stages, n + 1, rest);
      body := rest[Text(rows[n].id) := Obj(stages[n])];
    }
  }

  lemma ConvertSnoc(items: seq<Json>, stage: Cell, id: string, wrappers: set<string>)
    requires Convert(items, wrappers).Some? && Field(stage, StageId) == Str(id) && id !in wrappers
    ensures Convert(items + [Obj(stage)], wrappers) == Some(Convert(items, wrappers).value[Text(id) := Obj(stage)])
  {
    assert (items + [Obj(stage)])[..|items|] == items;
  }

  lemma KeyedSnoc(rows: seq<Row>, stages: seq<Cell>, n: nat, rest: Cell)
    requires 0 < n <= |rows| && n <= |stages|
    requires forall i, j | 0 <= i < j < |rows| :: rows[i].id != rows[j].id
    requires Keyed(rows, stages, n - 1, rest)
    ensures Keyed(rows, stages, n, rest[Text(rows[n - 1].id) := Obj(stages[n - 1])])
  {
    var last := Text(rows[n - 1].id);
    var body := rest[last := Obj(stages[n - 1])];
    forall i | 0 <= i < n ensures Text(rows[i].id) in body && body[Text(rows[i].id)] == Obj(stages[i]) {
      if i < n - 1 { assert Text(rows[i].id) != last; }
    }
    forall k | k in body ensures exists i | 0 <= i < n :: k == Text(rows[i].id) {
      if k != last {
        var i :| 0 <= i < n - 1 && k == Text(rows[i].id);
      }
    }
  }

  lemma KeyedCells(cat: Catalog, stages: seq<Cell>, body: Cell)
    requires |stages| == |cat.rows| && Keyed(cat.rows, stages, |stages|, body)
    ensures KnownCells(body, Ids(cat))
    ensures var cells := CellsOf(body, Ids(cat));
            forall i | 0 <= i < |cat.rows| :: cat.rows[i].id in cells && cells[cat.rows[i].id] == stages[i]
  {
    forall k | k in body ensures k.Text? && k.text in Ids(cat) && body[k].Obj? {
      var i :| 0 <= i < |cat.rows| && k == Text(cat.rows[i].id);
    }
  }

  lemma NormalizeList(cat: Catalog, doc: Cell, items: seq<Json>, body: Cell, candidate: string)
    requires Field(doc, Stages) == Arr(items) && Convert(items, cat.wrappers) == Some(body)
             && KnownCells(body, Ids(cat))
    requires MeasurementCommit(Obj(doc)) == None || MeasurementCommit(Obj(doc)) == Some(candidate)
    ensures Normalize(cat, Some(Obj(doc)), candidate) == Ok(CellsOf(body, Ids(cat)))
  {
  }

  /** Reading an atlas back gives every row the stage it was emitted with. */
  lemma AtlasReadsBack(cat: Catalog, stages: seq<Cell>, doc: Cell, candidate: string)
    requires ValidCatalog(cat) && NamedStages(cat.rows, stages)
    requires Field(doc, Stages) == Arr(Objects(stages))
    requires MeasurementCommit(Obj(doc)) == None || MeasurementCommit(Obj(doc)) == Some(candidate)
    ensures var cells := Normalize(cat, Some(Obj(doc)), candidate);
            cells.Ok? && forall i | 0 <= i < |cat.rows| ::
                           cat.rows[i].id in cells.value && cells.value[cat.rows[i].id] == stages[i]
  {
    var body := ConvertKeys(cat.rows, stages, Objects(stages), cat.wrappers);
    KeyedCells(cat, stages, body);
    NormalizeList(cat, doc, Objects(stages), body, candidate);
  }

  lemma DocumentClaimsNothing(cat: Catalog, stages: seq<Cell>)
    ensures MeasurementCommit(Obj(Document(cat, stages))) == None
    ensures Field(Document(cat, stages), Stages) == Arr(Objects(stages))
    ensures Field(Document(cat, stages), Kind) == Str(ATLAS_KIND)
  {
    DocumentKeys(cat, stages);
    NoCommit(Document(cat, stages));
  }

  lemma DocumentKeys(cat: Catalog, stages: seq<Cell>)
    ensures forall k | k in Document(cat, stages) :: !NamesCommit(k) && k != SourceCommit
  {
  }

  /** A stage fed back at a commit: at its own it yields itself; at another a measured one is refused, with
      both commits named, and an unmeasured one yields itself. */
  lemma StageFedBack(cat: Catalog, row: Row, from: map<string, Cell>, commit: string, s: Cell,
                     cells: map<string, Cell>, candidate: string)
    requires AllColumns(cat) && HonestStage(cat, row, from, commit, s)
    requires row.id in cells && cells[row.id] == s
    ensures StageFor(cat, row, cells, candidate) ==
            if Field(s, Status) == Str(MEASURED)
               && candidate != commit then Err(Stale(row.id, Some(commit), candidate)) else Ok(s)
  {
    if s == UnmeasuredStage(cat, row) {
      UnmeasuredFields(cat, row);
      UnmeasuredRefeeds(cat, row);
      UnmeasuredIsNoCommit();
    } else {
      MeasuredRefeeds(cat, row, from[row.id], commit);
      UnmeasuredIsNoCommit();
    }
  }

  lemma HonestNames(cat: Catalog, cells: map<string, Cell>, candidate: string, stages: seq<Cell>)
    requires ValidCatalog(cat) && HonestStages(cat, cells, candidate, stages)
    ensures NamedStages(cat.rows, stages)
  {
    forall i | 0 <= i < |cat.rows| ensures Field(stages[i], StageId) == Str(cat.rows[i].id) {
      SecondPassHolds(cat, cat.rows[i], cells, candidate, stages[i]);
    }
  }

  /** An atlas fed back at its own commit is reproduced exactly. */
  lemma FeedingBackIsFixpoint(cat: Catalog, raw: Option<Json>, rawCandidate: string)
    requires ValidCatalog(cat) && BuildAtlas(cat, raw, rawCandidate).Ok?
    ensures BuildAtlas(cat, Some(Obj(BuildAtlas(cat, raw, rawCandidate).value)), rawCandidate)
            == BuildAtlas(cat, raw, rawCandidate)
  {
    var candidate, from, stages := AtlasIsHonest(cat, raw, rawCandidate);
    DocumentClaimsNothing(cat, stages);
    FedBackAtOwn(cat, from, rawCandidate, candidate, stages, Document(cat, stages));
  }

  /** So is a stamped one, without its stamp. */
  lemma StampedIsFixpoint(cat: Catalog, raw: Option<Json>, rawCandidate: string, stamped: Cell)
    requires ValidCatalog(cat) && BuildAtlas(cat, raw, rawCandidate).Ok? && IsCommit(NormalCommit(rawCandidate).value)
    requires Stamped(BuildAtlas(cat, raw, rawCandidate).value, NormalCommit(rawCandidate).value, stamped)
    ensures BuildAtlas(cat, Some(Obj(stamped)), rawCandidate) == BuildAtlas(cat, raw, rawCandidate)
  {
    var candidate, from, stages := AtlasIsHonest(cat, raw, rawCandidate);
    DocumentClaimsNothing(cat, stages);
    OwnCommit(stamped, candidate);
    FedBackAtOwn(cat, from, rawCandidate, candidate, stages, stamped);
  }

  lemma FedBackAtOwn(cat: Catalog, from: map<string, Cell>, rawCandidate: string, candidate: string, stages: seq<Cell>,
                     doc: Cell)
    requires ValidCatalog(cat) && NormalCommit(rawCandidate) == Some(candidate)
             && HonestStages(cat, from, candidate, stages)
    requires Field(doc, Stages) == Arr(Objects(stages))
    requires MeasurementCommit(Obj(doc)) == None || MeasurementCommit(Obj(doc)) == Some(candidate)
    ensures BuildAtlas(cat, Some(Obj(doc)), rawCandidate) == Ok(Document(cat, stages))
  {
    HonestNames(cat, from, candidate, stages);
    AtlasReadsBack(cat, stages, doc, candidate);
    var cells := Normalize(cat, Some(Obj(doc)), candidate).value;
    forall i | 0 <= i < |cat.rows| ensures StageFor(cat, cat.rows[i], cells, candidate) == Ok(stages[i]) {
      StageFedBack(cat, cat.rows[i], from, candidate, stages[i], cells, candidate);
    }
    StagesFrom(cat, |cat.rows|, cells, candidate, stages);
    assert stages[..|stages|] == stages;
    SecondPassNeverFires(cat, Some(Obj(doc)), rawCandidate, cells);
  }

  /** At any other commit a stamped atlas is refused as a whole, naming both commits. */
  lemma StampedElsewhere(cat: Catalog, raw: Option<Json>, rawCandidate: string, otherCandidate: string, stamped: Cell)
    requires ValidCatalog(cat) && BuildAtlas(cat, raw, rawCandidate).Ok? && IsCommit(NormalCommit(rawCandidate).value)
    requires Stamped(BuildAtlas(cat, raw, rawCandidate).value, NormalCommit(rawCandidate).value, stamped)
    requires NormalCommit(otherCandidate).Some? && NormalCommit(otherCandidate) != NormalCommit(rawCandidate)
    ensures BuildAtlas(cat, Some(Obj(stamped)), otherCandidate)
            == Err(Stale("atlas", NormalCommit(rawCandidate), NormalCommit(otherCandidate).value))
  {
    var commit, _, stages := AtlasIsHonest(cat, raw, rawCandidate);
    DocumentClaimsNothing(cat, stages);
    StampedIsRefused(cat, stamped, commit, otherCandidate);
  }

  /** So an atlas bound to its commit, with whatever identity, is reproduced at that commit and refused as a
      whole at any other. */
  lemma BoundAtlasFedBack(cat: Catalog, raw: Option<Json>, rawCandidate: string, identity: Json, otherCandidate: string)
    requires ValidCatalog(cat) && BuildAtlas(cat, raw, rawCandidate).Ok? && IsCommit(NormalCommit(rawCandidate).value)
    requires NormalCommit(otherCandidate).Some?
    ensures var commit, other := NormalCommit(rawCandidate).value, NormalCommit(otherCandidate).value;
            var bound := Stamp(BuildAtlas(cat, raw, rawCandidate).value, commit, identity);
            && BuildAtlas(cat, Some(Obj(bound)), rawCandidate) == BuildAtlas(cat, raw, rawCandidate)
            && (other != commit ==> BuildAtlas(cat, Some(Obj(bound)), otherCandidate)
                                    == Err(Stale("atlas", Some(commit), other)))
  {
    var commit := NormalCommit(rawCandidate).value;
    var doc := BuildAtlas(cat, raw, rawCandidate).value;
    StampStamps(doc, commit, identity);
    StampedIsFixpoint(cat, raw, rawCandidate, Stamp(doc, commit, identity));
    if NormalCommit(otherCandidate).value != commit {
      StampedElsewhere(cat, raw, rawCandidate, otherCandidate, Stamp(doc, commit, identity));
    }
  }

  /** At any other commit an unstamped atlas with a measured stage is refused at such a stage, naming both
      commits; one without is reproduced as it is. */
  lemma FeedingBackElsewhere(cat: Catalog, raw: Option<Json>, rawCandidate: string, otherCandidate: string)
    requires ValidCatalog(cat) && BuildAtlas(cat, raw, rawCandidate).Ok?
    requires NormalCommit(otherCandidate).Some? && NormalCommit(otherCandidate) != NormalCommit(rawCandidate)
    ensures var doc := BuildAtlas(cat, raw, rawCandidate).value;
            RefusedOrSame(doc, BuildAtlas(cat, Some(Obj(doc)), otherCandidate),
                          NormalCommit(rawCandidate).value, NormalCommit(otherCandidate).value)
  {
    var commit, from, stages := AtlasIsHonest(cat, raw, rawCandidate);
    DocumentCounts(cat, stages);
    FedBackElsewhere(cat, from, commit, stages, otherCandidate);
  }

  predicate RefusedOrSame(doc: Cell, again: Result<Cell, AtlasError>, commit: string, other: string) {
    if Field(doc, Text("measured_count")) == Num(0.0) then again == Ok(doc)
    else again.Err? && again.error.Stale? && again.error.measuredAt == Some(commit) && again.error.atlasCommit == other
  }

  lemma DocumentCounts(cat: Catalog, stages: seq<Cell>)
    ensures Field(Document(cat, stages), Text("measured_count")) == Num(CountStatus(stages, MEASURED) as real)
    ensures Field(Document(cat, stages), Text("unmeasured_count")) == Num(CountStatus(stages, UNMEASURED) as real)
    ensures Field(Document(cat, stages), Text("stage_count")) == Num(|cat.rows| as real)
  {
    assert |"measured_count"| == 14 && |"unmeasured_count"| == 16 && |"stage_count"| == 11 && |"stage_ids"| == 9;
  }

  lemma FedBackElsewhere(cat: Catalog, from: map<string, Cell>, commit: string, stages: seq<Cell>,
                         otherCandidate: string)
    requires ValidCatalog(cat) && HonestStages(cat, from, commit, stages)
    requires NormalCommit(otherCandidate).Some? && NormalCommit(otherCandidate).value != commit
    ensures var doc, other := Document(cat, stages), NormalCommit(otherCandidate).value;
            var again := BuildAtlas(cat, Some(Obj(doc)), otherCandidate);
            if CountStatus(stages, MEASURED) == 0 then again == Ok(doc)
            else again.Err? && again.error.Stale? && again.error.measuredAt == Some(commit)
                 && again.error.atlasCommit == other
  {
    var doc, other := Document(cat, stages), NormalCommit(otherCandidate).value;
    DocumentClaimsNothing(cat, stages);
    HonestNames(cat, from, commit, stages);
    AtlasReadsBack(cat, stages, doc, other);
    var cells := Normalize(cat, Some(Obj(doc)), other).value;
    SecondPassNeverFires(cat, Some(Obj(doc)), otherCandidate, cells);
    FedBackPrefix(cat, from, commit, stages, cells, other, |cat.rows|);
    assert stages[..|stages|] == stages;
  }

  lemma StampedIsRefused(cat: Catalog, doc: Cell, commit: string, otherCandidate: string)
    requires IsCommit(commit) && Field(doc, SourceCommit) == Str(commit) && Field(doc, Kind) == Str(ATLAS_KIND)
    requires NormalCommit(otherCandidate).Some? && NormalCommit(otherCandidate).value != commit
    ensures BuildAtlas(cat, Some(Obj(doc)), otherCandidate)
            == Err(Stale("atlas", Some(commit), NormalCommit(otherCandidate).value))
  {
    OwnCommit(doc, commit);
  }

  lemma {:induction false} FedBackPrefix(cat: Catalog, from: map<string, Cell>, commit: string, stages: seq<Cell>,
                                         cells: map<string, Cell>, other: string, n: nat)
    requires AllColumns(cat) && HonestStages(cat, from, commit, stages) && other != commit && n <= |cat.rows|
    requires forall i | 0 <= i < |cat.rows| :: cat.rows[i].id in cells && cells[cat.rows[i].id] == stages[i]
    ensures var r := StagesOf(cat, n, cells, other);
            if CountStatus(stages[..n], MEASURED) == 0 then r == Ok(stages[..n])
            else r.Err? && r.error.Stale? && r.error.measuredAt == Some(commit) && r.error.atlasCommit == other
  {
    if n > 0 {
      FedBackPrefix(cat, from, commit, stages, cells, other, n - 1);
      var r := StageFor(cat, cat.rows[n - 1], cells, other);
      assert r == if Field(stages[n - 1], Status) == Str(MEASURED)
             then Err(Stale(cat.rows[n - 1].id, Some(commit), other)) else Ok(stages[n - 1]) by {
        StageFedBack(cat, cat.rows[n - 1], from, commit, stages[n - 1], cells, other);
      }
      PrefixCounts(stages, n);
    }
  }

  lemma PrefixCounts(stages: seq<Cell>, n: nat)
    requires 0 < n <= |stages|
    ensures stages[..n] == stages[..n - 1] + [stages[n - 1]]
    ensures CountStatus(stages[..n], MEASURED)
            == CountStatus(stages[..n - 1], MEASURED) + if Field(stages[n - 1], Status) == Str(MEASURED) then 1 else 0
  {
    assert stages[..n][..n - 1] == stages[..n - 1];
  }
}
