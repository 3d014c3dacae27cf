/** Assembling the atlas from supplied measurements, and feeding an atlas back. */
module AtlasBuild {
  import opened Common
  import opened AtlasCells
  import opened Atlas

  // ---------------------------------------------------------------- one stage

  /** The stage of a row, from its supplied cell if there is one. */
  function StageFor(cat: Catalog, row: Row, cells: map<string, Cell>, candidate: string): Result<Cell, AtlasError> {
    if row.id !in cells then Ok(UnmeasuredStage(cat, row)) else
    var cell := cells[row.id];
    var gate := AssertFresh(row.id, cell, candidate);
    if gate.Err? then Err(gate.error)
    else if HasValue(Obj(cell)) then MeasuredStage(cat, row, cell, candidate)
    else Ok(UnmeasuredStage(cat, row))
  }

  /** The stages of the first `n` rows; the first refusal wins. */
  function StagesOf(cat: Catalog, n: nat, cells: map<string, Cell>, candidate: string)
    : (r: Result<seq<Cell>, AtlasError>)
    requires n <= |cat.rows|
    ensures r.Ok? ==> |r.value| == n
  {
    if n == 0 then Ok([]) else
    var rest := StagesOf(cat, n - 1, cells, candidate);
    if rest.Err? then rest else
    var stage := StageFor(cat, cat.rows[n - 1], cells, candidate);
    if stage.Err? then Err(stage.error) else Ok(rest.value + [stage.value])
  }

  method BuildStages(cat: Catalog, cells: map<string, Cell>, candidate: string)
    returns (r: Result<seq<Cell>, AtlasError>)
    ensures r == StagesOf(cat, |cat.rows|, cells, candidate)
  {
    var stages: seq<Cell> := [];
    for i := 0 to |cat.rows|
      invariant StagesOf(cat, i, cells, candidate) == Ok(stages)
    {
      var row := cat.rows[i];
      if row.id !in cells {
        stages := stages + [UnmeasuredStage(cat, row)];
        continue;
      }
      var cell := cells[row.id];
      var gate := AssertFresh(row.id, cell, candidate);
      if gate.Err? {
        assert StagesOf(cat, i + 1, cells, candidate) == Err(gate.error);
        RefusalStays(cat, i + 1, |cat.rows|, cells, candidate);
        return Err(gate.error);
      }
      if HasValue(Obj(cell)) {
        var stage := BuildMeasuredStage(cat, row, cell, candidate);
        if stage.Err? {
          assert StagesOf(cat, i + 1, cells, candidate) == Err(stage.error);
          RefusalStays(cat, i + 1, |cat.rows|, cells, candidate);
          return Err(stage.error);
        }
        stages := stages + [stage.value];
      } else {
        stages := stages + [UnmeasuredStage(cat, row)];
      }
    }
    return Ok(stages);
  }

  lemma {:induction false} RefusalStays(cat: Catalog, k: nat, n: nat, cells: map<string, Cell>, candidate: string)
    requires k <= n <= |cat.rows| && StagesOf(cat, k, cells, candidate).Err?
    ensures StagesOf(cat, n, cells, candidate) == StagesOf(cat, k, cells, candidate)
  {
    if k < n { RefusalStays(cat, k, n - 1, cells, candidate); }
  }

  lemma {:induction false} StagesAt(cat: Catalog, n: nat, cells: map<string, Cell>, candidate: string, i: nat)
    requires i < n <= |cat.rows| && StagesOf(cat, n, cells, candidate).Ok?
    ensures StageFor(cat, cat.rows[i], cells, candidate) == Ok(StagesOf(cat, n, cells, candidate).value[i])
  {
    if i < n - 1 { StagesAt(cat, n - 1, cells, candidate, i); }
  }

  lemma {:induction false} StagesFrom(cat: Catalog, n: nat, cells: map<string, Cell>, candidate: string,
                                      stages: seq<Cell>)
    requires n <= |cat.rows| && n <= |stages|
    requires forall i | 0 <= i < n :: StageFor(cat, cat.rows[i], cells, candidate) == Ok(stages[i])
    ensures StagesOf(cat, n, cells, candidate) == Ok(stages[..n])
  {
    if n > 0 {
      StagesFrom(cat, n - 1, cells, candidate, stages);
      TakeSnoc(stages, n);
    }
  }

  // ---------------------------------------------------------------- reading the measurements

  function KeyOf(id: Json, wrappers: set<string>): Option<Key> {
    if id.Str? then Some(if id.s in wrappers then Wrapper(id.s) else Text(id.s)) else None
  }

  /** A stages list as an object keyed by stage id; a later entry replaces an earlier one. */
  function Convert(items: seq<Json>, wrappers: set<string>): Option<Cell> {
    if items == [] then Some(map[]) else
    var rest, last := Convert(items[..|items| - 1], wrappers), items[|items| - 1];
    if rest.None? || !last.Obj? || StageId !in last.fields then None else
    var key := KeyOf(last.fields[StageId], wrappers);
    if key.None? then None else Some(rest.value[key.value := last])
  }

  method ConvertStages(items: seq<Json>, wrappers: set<string>) returns (r: Option<Cell>)
    ensures r == Convert(items, wrappers)
  {
    var converted: Cell := map[];
    for i := 0 to |items|
      invariant Convert(items[..i], wrappers) == Some(converted)
    {
      assert items[..i + 1][..i] == items[..i];
      if !items[i].Obj? || StageId !in items[i].fields || KeyOf(items[i].fields[StageId], wrappers).None? {
        ConvertStaysRefused(items, wrappers, i + 1, |items|);
        assert items[..|items|] == items;
        return None;
      }
      converted := converted[KeyOf(items[i].fields[StageId], wrappers).value := items[i]];
    }
    assert items[..|items|] == items;
    return Some(converted);
  }

  lemma {:induction false} ConvertStaysRefused(items: seq<Json>, wrappers: set<string>, k: nat, n: nat)
    requires k <= n <= |items| && Convert(items[..k], wrappers).None?
    ensures Convert(items[..n], wrappers).None?
  {
    if k < n {
      ConvertStaysRefused(items, wrappers, k, n - 1);
      assert items[..n][..n - 1] == items[..n - 1];
    }
  }

  function Ids(cat: Catalog): set<string> {
    set i | 0 <= i < |cat.rows| :: cat.rows[i].id
  }

  predicate KnownKey(body: Cell, ids: set<string>, k: Key)
    requires k in body
  {
    IsWrapper(k) || (k.Text? && k.text in ids && body[k].Obj?)
  }

  predicate KnownCells(body: Cell, ids: set<string>) {
    forall k | k in body :: KnownKey(body, ids, k)
  }

  function CellsOf(body: Cell, ids: set<string>): map<string, Cell> {
    map id | id in ids && Text(id) in body && body[Text(id)].Obj? :: body[Text(id)].fields
  }

  /** Every non-wrapper key must be a known stage id with an object cell. */
  method PickCells(body: Cell, ids: set<string>) returns (r: Option<map<string, Cell>>)
    ensures r.Some? <==> KnownCells(body, ids)
    ensures r.Some? ==> r.value == CellsOf(body, ids)
  {
    var picked: map<string, Cell> := map[];
    var keys := body.Keys;
    while keys != {}
      invariant keys <= body.Keys
      invariant forall k | k in body && k !in keys :: KnownKey(body, ids, k)
      invariant forall id | id in picked ::
                  id in ids && Text(id) in body && Text(id) !in keys && body[Text(id)] == Obj(picked[id])
      invariant forall id | id in ids && Text(id) in body && Text(id) !in keys :: id in picked
      decreases keys
    {
      var k :| k in keys;
      keys := keys - {k};
      if IsWrapper(k) {
        continue;
      }
      if !k.Text? || k.text !in ids || !body[k].Obj? {
        assert !KnownKey(body, ids, k);
        return None;
      }
      picked := picked[k.text := body[k].fields];
    }
    assert picked == CellsOf(body, ids);
    return Some(picked);
  }

  function BodyOf(raw: Cell, wrappers: set<string>): Option<Cell> {
    match Field(raw, Stages)
    case Obj(fields) => Some(fields)
    case Arr(items) => Convert(items, wrappers)
    case _ => Some(raw)
  }

  function Normalize(cat: Catalog, raw: Option<Json>, candidate: string): Result<map<string, Cell>, AtlasError> {
    if raw.None? then Ok(map[])
    else if !raw.value.Obj? then Err(Invalid)
    else
      var doc := raw.value.fields;
      var whole := MeasurementCommit(raw.value);
      if Field(doc, Kind) == Str(ATLAS_KIND) && whole.Some?
         && whole != Some(candidate) then Err(Stale("atlas", whole, candidate))
      else
        var body := BodyOf(doc, cat.wrappers);
        if body.Some? && KnownCells(body.value, Ids(cat)) then Ok(CellsOf(body.value, Ids(cat))) else Err(Invalid)
  }

  // ---------------------------------------------------------------- the document

  function CountStatus(stages: seq<Cell>, status: string): nat {
    if stages == [] then 0 else
    CountStatus(stages[..|stages| - 1], status) + if Field(stages[|stages| - 1], Status) == Str(status) then 1 else 0
  }

  function Objects(stages: seq<Cell>): (r: seq<Json>)
    ensures |r| == |stages|
  {
    seq(|stages|, i requires 0 <= i < |stages| => Obj(stages[i]))
  }

  const HONESTY: Json := Obj(map[Text("producer_does_not_run_harnesses") := Bool(true),
                                 Text("inherited_fields") := Num(0.0)])

  function Document(cat: Catalog, stages: seq<Cell>): Cell {
    map[Wrapper("schema_version") := Num(2.0), Kind := Str(ATLAS_KIND), Wrapper("honesty") := HONESTY,
        Text("stage_ids") := Arr(seq(|cat.rows|, i requires 0 <= i < |cat.rows| => Str(cat.rows[i].id))),
        Text("stage_count") := Num(|cat.rows| as real),
        Text("measured_count") := Num(CountStatus(stages, MEASURED) as real),
        Text("unmeasured_count") := Num(CountStatus(stages, UNMEASURED) as real),
        Stages := Arr(Objects(stages))]
  }

  /** The second pass over one emitted stage. */
  function SecondPass(cat: Catalog, stage: Cell, candidate: string): bool {
    if Field(stage, Status) == Str(MEASURED) then Field(stage, SourceCommit) == Str(candidate)
    else
      && Field(stage, Status) == Str(UNMEASURED)
      && Field(stage, Reason) != Null && Field(stage, Reason) != Str("")
      && Field(stage, SourceCommit) == Str(UNMEASURED)
      && forall m | m in cat.metrics :: Field(stage, MetricKey(m)) == Str(UNMEASURED)
  }

  predicate AllFresh(cat: Catalog, stages: seq<Cell>, candidate: string) {
    forall i | 0 <= i < |stages| :: SecondPass(cat, stages[i], candidate)
  }

  method AssertAtlasFresh(cat: Catalog, stages: seq<Cell>, candidate: string) returns (ok: bool)
    ensures ok <==> AllFresh(cat, stages, candidate)
  {
    for i := 0 to |stages|
      invariant AllFresh(cat, stages[..i], candidate)
    {
      if !SecondPass(cat, stages[i], candidate) {
        return false;
      }
    }
    return true;
  }

  function NormalCommit(rawCandidate: string): Option<string> {
    if |Strip(rawCandidate)| != 40 then None else Some(Lower(Strip(rawCandidate)))
  }

  function BuildAtlas(cat: Catalog, raw: Option<Json>, rawCandidate: string): Result<Cell, AtlasError> {
    var candidate := NormalCommit(rawCandidate);
    if candidate.None? then Err(Invalid) else
    var cells := Normalize(cat, raw, candidate.value);
    if cells.Err? then Err(cells.error) else
    var stages := StagesOf(cat, |cat.rows|, cells.value, candidate.value);
    if stages.Err? then Err(stages.error)
    else if !AllFresh(cat, stages.value, candidate.value) then Err(Invalid)
    else Ok(Document(cat, stages.value))
  }

  method NormalizeMeasurements(cat: Catalog, raw: Option<Json>, candidate: string)
    returns (r: Result<map<string, Cell>, AtlasError>)
    ensures r == Normalize(cat, raw, candidate)
  {
    if raw.None? {
      return Ok(map[]);
    }
    if !raw.value.Obj? {
      return Err(Invalid);
    }
    var doc, whole := raw.value.fields, MeasurementCommit(raw.value);
    if Field(doc, Kind) == Str(ATLAS_KIND) && whole.Some? && whole != Some(candidate) {
      return Err(Stale("atlas", whole, candidate));
    }
    var body := doc;
    match Field(doc, Stages) {
      case Obj(fields) => body := fields;
      case Arr(items) =>
        var converted := ConvertStages(items, cat.wrappers);
        if converted.None? {
          return Err(Invalid);
        }
        body := converted.value;
      case _ =>
    }
    var picked := PickCells(body, Ids(cat));
    return if picked.Some? then Ok(picked.value) else Err(Invalid);
  }

  method ComputeAtlas(cat: Catalog, raw: Option<Json>, rawCandidate: string) returns (r: Result<Cell, AtlasError>)
    ensures r == BuildAtlas(cat, raw, rawCandidate)
  {
    var normal := NormalCommit(rawCandidate);
    if normal.None? {
      return Err(Invalid);
    }
    var candidate := normal.value;
    var cells := NormalizeMeasurements(cat, raw, candidate);
    if cells.Err? {
      return Err(cells.error);
    }
    var stages := BuildStages(cat, cells.value, candidate);
    if stages.Err? {
      return Err(stages.error);
    }
    var ok := AssertAtlasFresh(cat, stages.value, candidate);
    return if ok then Ok(Document(cat, stages.value)) else Err(Invalid);
  }
}
