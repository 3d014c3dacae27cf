/** Measurement cells of the latency atlas: which commit they claim, whether they carry a value, and the
    gate that refuses a value measured at another commit. */
module AtlasCells {
  import opened Common

  datatype Percentile = P50 | P95 | P99
  datatype Metric =
    | Latency(p: Percentile) | Throughput | Cpu | Ram | GpuMemory | Network | DbTime | Allocations | FailureRate
  datatype Optional = Samples | Concurrency | Units

  const METRICS: seq<Metric> :=
    [Latency(P50), Latency(P95), Latency(P99), Throughput, Cpu, Ram, GpuMemory, Network, DbTime, Allocations,
     FailureRate]

  const OPTIONALS: seq<Optional> := [Samples, Concurrency, Units]

  /** The object keys the producer looks at; `Text` is every other key, stage ids among them. */
  datatype Key =
    | MetricKey(m: Metric)             // "p50_ms", ..., "throughput", ...
    | ShortKey(p: Percentile)          // "p50", "p95", "p99"
    | OptionalKey(o: Optional)
    | Status | Harness | Reason | StageId | Name
    | SourceCommit | ExpectedCommit | CandidateCommit | Commit
    | Head | MeasuredAtCommit | MeasuredCommit | Measurement
    | Binding | ProducerIdentity | Provenance | Identity
    | Value | Kind | Stages
    | Wrapper(name: string)            // the remaining wrapper keys
    | Text(text: string)

  datatype Json =
    | Null | Bool(b: bool) | Num(n: real) | Str(s: string) | Arr(items: seq<Json>) | Obj(fields: map<Key, Json>)

  type Cell = map<Key, Json>

  const UNMEASURED := "UNMEASURED"
  const MEASURED := "MEASURED"

  // ---------------------------------------------------------------- the commit a cell claims

  /** Some producers wrap the commit as {"value": sha}. */
  function Unwrap(v: Json): Json {
    if v.Obj? && Value in v.fields then v.fields[Value] else v
  }

  function AsCommit(v: Json): (r: Option<string>)
    ensures r.Some? ==> IsCommit(r.value)
  {
    var u := Unwrap(v);
    if u.Str? && IsCommit(Lower(Strip(u.s))) then Some(Lower(Strip(u.s))) else None
  }

  function Field(c: Cell, k: Key): Json {
    if k in c then c[k] else Null
  }

  function FirstOf(a: Option<string>, b: Option<string>): Option<string> {
    if a.Some? then a else b
  }

  function DirectCommit(c: Cell): (r: Option<string>)
    ensures r.Some? ==> IsCommit(r.value)
  {
    FirstOf(AsCommit(Field(c, SourceCommit)), FirstOf(AsCommit(Field(c, ExpectedCommit)),
    FirstOf(AsCommit(Field(c, CandidateCommit)), AsCommit(Field(c, Commit)))))
  }

  function NestCommit(c: Cell, nest: Key): Option<string> {
    var inner := Field(c, nest);
    if inner.Obj? then DirectCommit(inner.fields) else None
  }

  function ReceiptCommit(c: Cell): Option<string> {
    FirstOf(DirectCommit(c), FirstOf(NestCommit(c, Binding), FirstOf(NestCommit(c, ProducerIdentity),
    FirstOf(NestCommit(c, Provenance), NestCommit(c, Identity)))))
  }

  /** Its own fields, the nested blocks, then the legacy aliases. */
  function OwnClaim(c: Cell): Option<string> {
    FirstOf(ReceiptCommit(c), FirstOf(AsCommit(Field(c, Head)),
    FirstOf(AsCommit(Field(c, MeasuredAtCommit)), AsCommit(Field(c, MeasuredCommit)))))
  }

  /** Own commit first, then the nested measurement, which shadows the identity. */
  function MeasurementCommit(j: Json): (r: Option<string>)
    ensures r.Some? ==> IsCommit(r.value)
  {
    if !j.Obj? then None else
    var c := j.fields;
    if OwnClaim(c).Some? then OwnClaim(c)
    else if Field(c, Measurement).Obj? then MeasurementCommit(c[Measurement])
    else NestCommit(c, ProducerIdentity)
  }

  // ---------------------------------------------------------------- the values a cell carries

  predicate Blank(v: Json) {
    v == Null || v == Str("") || v == Str(UNMEASURED)
  }

  function Claimed(c: Cell): string {
    var s := Field(c, Status);
    if s.Str? then Upper(Strip(s.s)) else ""
  }

  /** This entry alone makes the cell carry a value. */
  predicate Carries(k: Key, v: Json) {
    match k
    case MetricKey(_) => v.Num?
    case ShortKey(_) => v.Num?
    case OptionalKey(_) => !Blank(v)
    case _ => false
  }

  predicate HasValue(j: Json) {
    j.Obj? &&
    var c := j.fields;
    || Claimed(c) == MEASURED
    || (exists k | k in c :: Carries(k, c[k]))
    || (Field(c, Measurement).Obj? && HasValue(c[Measurement]))
  }

  predicate Supplied(c: Cell, k: Key) {
    k in c && c[k] != Null && c[k] != Str("")
  }

  /** The value of a metric: the field, then its alias, then the nested measurement. */
  function MetricOf(j: Json, m: Metric): Json {
    if !j.Obj? then Str(UNMEASURED) else
    var c := j.fields;
    if Supplied(c, MetricKey(m)) then c[MetricKey(m)]
    else if m.Latency? && Supplied(c, ShortKey(m.p)) then c[ShortKey(m.p)]
    else if Field(c, Measurement).Obj? then MetricOf(c[Measurement], m)
    else Str(UNMEASURED)
  }

  /** `v` stands in the chain of nested measurements under this metric or its alias. */
  predicate InChain(j: Json, m: Metric, v: Json) {
    j.Obj? &&
    var c := j.fields;
    || (MetricKey(m) in c && c[MetricKey(m)] == v)
    || (m.Latency? && ShortKey(m.p) in c && c[ShortKey(m.p)] == v)
    || (Field(c, Measurement).Obj? && InChain(c[Measurement], m, v))
  }

  lemma {:induction false} MetricComesFromChain(j: Json, m: Metric)
    ensures MetricOf(j, m) == Str(UNMEASURED) || InChain(j, m, MetricOf(j, m))
  {
    if j.Obj? && Field(j.fields, Measurement).Obj? {
      MetricComesFromChain(j.fields[Measurement], m);
    }
  }

  lemma {:induction false} NumberMakesValue(j: Json, m: Metric)
    requires MetricOf(j, m).Num?
    ensures HasValue(j)
  {
    var c := j.fields;
    if Supplied(c, MetricKey(m)) {
      assert Carries(MetricKey(m), c[MetricKey(m)]);
    } else if m.Latency? && Supplied(c, ShortKey(m.p)) {
      assert Carries(ShortKey(m.p), c[ShortKey(m.p)]);
    } else {
      NumberMakesValue(c[Measurement], m);
    }
  }

  // ---------------------------------------------------------------- the freshness gate

  datatype AtlasError =
    | Stale(stage: string, measuredAt: Option<string>, atlasCommit: string)
    | Mislabelled(stage: string)
    | Invalid

  /** The gate: it passes exactly when the resolved commit is the candidate, or the cell claims neither
      commit nor value; and the cell is no value labelled UNMEASURED.  A staleness refusal names the stage
      and both commits. */
  function AssertFresh(stage: string, cell: Cell, candidate: string): (r: Result<(), AtlasError>)
    ensures var measured, has := MeasurementCommit(Obj(cell)), HasValue(Obj(cell));
            && (r.Ok? <==> (measured == Some(candidate) || (measured == None && !has))
                           && !(Claimed(cell) == UNMEASURED && has))
            && (r.Err? && measured != Some(candidate) ==> r.error == Stale(stage, measured, candidate))
            && (r.Err? && measured == Some(candidate) ==> r.error == Mislabelled(stage))
  {
    var measured, has := MeasurementCommit(Obj(cell)), HasValue(Obj(cell));
    if Claimed(cell) == UNMEASURED && has && measured != Some(candidate) then Err(Stale(stage, measured, candidate))
    else if Claimed(cell) == UNMEASURED && has && measured == Some(candidate) then Err(Mislabelled(stage))
    else if !has then
      if measured.Some? && measured != Some(candidate) then Err(Stale(stage, measured, candidate)) else Ok(())
    else if measured.None? then Err(Stale(stage, measured, candidate))
    else if measured != Some(candidate) then Err(Stale(stage, measured, candidate))
    else Ok(())
  }

  // ---------------------------------------------------------------- text facts

  lemma {:induction false} LowerFixed(s: string)
    requires IsCommit(s)
    ensures Lower(Strip(s)) == s
  {
    assert !IsSpace(s[0]) && !IsSpace(s[39]);
    assert DropLeading(s, Blanks) == s && DropTrailing(s, Blanks) == s;
  }

  lemma UnmeasuredIsNoCommit()
    ensures AsCommit(Str(UNMEASURED)) == None
    ensures Upper(Strip(UNMEASURED)) == UNMEASURED && Upper(Strip(MEASURED)) == MEASURED && UNMEASURED != MEASURED
  {
    assert DropLeading(UNMEASURED, Blanks) == UNMEASURED && DropTrailing(UNMEASURED, Blanks) == UNMEASURED;
    assert DropLeading(MEASURED, Blanks) == MEASURED && DropTrailing(MEASURED, Blanks) == MEASURED;
    assert |UNMEASURED| == 10 && |MEASURED| == 8;
  }

  lemma OwnCommit(c: Cell, sha: string)
    requires IsCommit(sha) && Field(c, SourceCommit) == Str(sha)
    ensures MeasurementCommit(Obj(c)) == Some(sha)
  {
    LowerFixed(sha);
    assert DirectCommit(c) == Some(sha);
  }

  /** Keys through which a cell can name a commit other than its own `source_commit`. */
  predicate NamesCommit(k: Key) {
    || k == ExpectedCommit || k == CandidateCommit || k == Commit || k == Head || k == MeasuredAtCommit
      || k == MeasuredCommit
    || k == Measurement || k == Binding || k == ProducerIdentity || k == Provenance || k == Identity
  }

  lemma NullNamesNothing(c: Cell)
    requires AsCommit(Field(c, SourceCommit)) == None && forall k | NamesCommit(k) :: Field(c, k) == Null
    ensures MeasurementCommit(Obj(c)) == None
  {
    assert AsCommit(Null) == None;
    assert DirectCommit(c) == None;
    assert ReceiptCommit(c) == None;
  }

  lemma NoCommit(c: Cell)
    requires SourceCommit !in c || c[SourceCommit] == Str(UNMEASURED)
    requires forall k | k in c :: !NamesCommit(k)
    ensures MeasurementCommit(Obj(c)) == None
  {
    UnmeasuredIsNoCommit();
    forall k | NamesCommit(k) ensures Field(c, k) == Null { }
    NullNamesNothing(c);
  }

  lemma NoValue(c: Cell)
    requires Field(c, Status) == Str(UNMEASURED) && Measurement !in c
    requires forall k | k in c :: !Carries(k, c[k])
    ensures !HasValue(Obj(c)) && Claimed(c) == UNMEASURED
  {
    UnmeasuredIsNoCommit();
  }

  // ---------------------------------------------------------------- a cell as a chain of cells

  /** The cell and the measurements nested in it, outermost first. */
  function Chain(j: Json): (cells: seq<Cell>)
    ensures cells == [] <==> !j.Obj?
  {
    if !j.Obj? then [] else
    [j.fields] + if Field(j.fields, Measurement).Obj? then Chain(j.fields[Measurement]) else []
  }

  /** The cell supplies the metric, under its own key or its alias. */
  predicate Supplies(c: Cell, m: Metric) {
    Supplied(c, MetricKey(m)) || (m.Latency? && Supplied(c, ShortKey(m.p)))
  }

  function Supply(c: Cell, m: Metric): Json
    requires Supplies(c, m)
  {
    if Supplied(c, MetricKey(m)) then c[MetricKey(m)] else c[ShortKey(m.p)]
  }

  /** A metric is what the outermost cell that supplies it says, its own key before the alias, and UNMEASURED
      when no cell of the chain supplies it. */
  lemma {:induction false} MetricIsFirst(j: Json, m: Metric) returns (k: nat)
    ensures var cells := Chain(j);
            && k <= |cells| && (forall i | 0 <= i < k :: !Supplies(cells[i], m))
            && (k < |cells| ==> Supplies(cells[k], m) && MetricOf(j, m) == Supply(cells[k], m))
            && (k == |cells| ==> MetricOf(j, m) == Str(UNMEASURED))
  {
    k := 0;
    if j.Obj? && !Supplies(j.fields, m) {
      k := 1;
      if Field(j.fields, Measurement).Obj? {
        var rest := MetricIsFirst(j.fields[Measurement], m);
        k := rest + 1;
      }
    }
  }

  /** The cell itself carries a value: a number under a metric or an alias, a non-blank extra, or the claim. */
  ghost predicate Measures(c: Cell) {
    || Claimed(c) == MEASURED
    || (exists m :: Field(c, MetricKey(m)).Num?) || (exists p :: Field(c, ShortKey(p)).Num?)
    || (exists o :: var v := Field(c, OptionalKey(o)); v != Null && v != Str("") && v != Str(UNMEASURED))
  }

  lemma CarriesIff(c: Cell)
    ensures Measures(c) <==> Claimed(c) == MEASURED || exists k | k in c :: Carries(k, c[k])
  {
    if m :| Field(c, MetricKey(m)).Num? { assert Carries(MetricKey(m), c[MetricKey(m)]); }
    if p :| Field(c, ShortKey(p)).Num? { assert Carries(ShortKey(p), c[ShortKey(p)]); }
    if o :| Field(c, OptionalKey(o)) != Null && Field(c, OptionalKey(o)) != Str("")
            && Field(c, OptionalKey(o)) != Str(UNMEASURED) { assert Carries(OptionalKey(o), c[OptionalKey(o)]); }
    if k :| k in c && Carries(k, c[k]) {
      match k
      case MetricKey(m) => assert Field(c, MetricKey(m)).Num?;
      case ShortKey(p) => assert Field(c, ShortKey(p)).Num?;
      case OptionalKey(o) => assert Field(c, OptionalKey(o)) != Null;
      case _ =>
    }
  }

  /** Some cell of the chain carries a value. */
  ghost predicate SomeMeasures(cells: seq<Cell>) {
    exists i | 0 <= i < |cells| :: Measures(cells[i])
  }

  lemma SomeMeasuresCons(c: Cell, rest: seq<Cell>)
    ensures SomeMeasures([c] + rest) <==> Measures(c) || SomeMeasures(rest)
  {
    var cells := [c] + rest;
    assert cells[0] == c && forall i | 0 <= i < |rest| :: cells[i + 1] == rest[i];
  }

  /** A cell carries a value exactly when it or a measurement nested in it does. */
  lemma {:induction false} ValueIff(j: Json)
    ensures HasValue(j) <==> SomeMeasures(Chain(j))
  {
    if j.Obj? {
      CarriesIff(j.fields);
      if Field(j.fields, Measurement).Obj? {
        ValueIff(j.fields[Measurement]);
        SomeMeasuresCons(j.fields, Chain(j.fields[Measurement]));
      } else {
        SomeMeasuresCons(j.fields, []);
      }
    }
  }

  // ---------------------------------------------------------------- the commit as the first of a list

  /** The values of an object that may name its commit, in the order they are asked. */
  function DirectClaims(c: Cell): seq<Json> {
    [Field(c, SourceCommit), Field(c, ExpectedCommit), Field(c, CandidateCommit), Field(c, Commit)]
  }

  function NestClaims(c: Cell, nest: Key): seq<Json> {
    if Field(c, nest).Obj? then DirectClaims(c[nest].fields) else []
  }

  /** Its own fields, those of the nested blocks, then the legacy aliases. */
  function OwnClaims(c: Cell): seq<Json> {
    DirectClaims(c) + NestClaims(c, Binding) + NestClaims(c, ProducerIdentity) + NestClaims(c, Provenance)
    + NestClaims(c, Identity) + [Field(c, Head), Field(c, MeasuredAtCommit), Field(c, MeasuredCommit)]
  }

  function Claims(cells: seq<Cell>): seq<Json> {
    if cells == [] then [] else OwnClaims(cells[0]) + Claims(cells[1..])
  }

  /** The first value of a list that is a full commit. */
  function FirstCommit(vs: seq<Json>): Option<string> {
    if vs == [] then None else FirstOf(AsCommit(vs[0]), FirstCommit(vs[1..]))
  }

  lemma {:induction false} FirstCommitIs(vs: seq<Json>) returns (k: nat)
    ensures k <= |vs| && forall i | 0 <= i < k :: AsCommit(vs[i]) == None
    ensures k < |vs| ==> AsCommit(vs[k]).Some? && FirstCommit(vs) == AsCommit(vs[k])
    ensures k == |vs| ==> FirstCommit(vs) == None
  {
    if vs == [] || AsCommit(vs[0]).Some? {
      k := 0;
    } else {
      var rest := FirstCommitIs(vs[1..]);
      k := rest + 1;
    }
  }

  lemma {:induction false} FirstCommitConcat(a: seq<Json>, b: seq<Json>)
    ensures FirstCommit(a + b) == FirstOf(FirstCommit(a), FirstCommit(b))
    decreases |a|
  {
    if a == [] {
      assert a + b == b;
    } else {
      assert (a + b)[1..] == a[1..] + b;
      FirstCommitConcat(a[1..], b);
    }
  }

  lemma FirstOfFour(a: Json, b: Json, c: Json, d: Json)
    ensures FirstCommit([a, b, c, d])
            == FirstOf(AsCommit(a), FirstOf(AsCommit(b), FirstOf(AsCommit(c), AsCommit(d))))
  {
    assert [d][1..] == [] && FirstCommit([d]) == AsCommit(d);
    assert [c, d][1..] == [d] && FirstCommit([c, d]) == FirstOf(AsCommit(c), AsCommit(d));
    assert [b, c, d][1..] == [c, d] && FirstCommit([b, c, d]) == FirstOf(AsCommit(b), FirstCommit([c, d]));
    assert [a, b, c, d][1..] == [b, c, d];
  }

  lemma DirectIsFirst(c: Cell)
    ensures FirstCommit(DirectClaims(c)) == DirectCommit(c)
  {
    FirstOfFour(Field(c, SourceCommit), Field(c, ExpectedCommit), Field(c, CandidateCommit), Field(c, Commit));
  }

  lemma NestIsFirst(c: Cell, nest: Key)
    ensures FirstCommit(NestClaims(c, nest)) == NestCommit(c, nest)
  {
    if Field(c, nest).Obj? { DirectIsFirst(c[nest].fields); }
  }

  lemma OwnIsFirst(c: Cell)
    ensures FirstCommit(OwnClaims(c)) == OwnClaim(c)
  {
    var d := DirectClaims(c);
    var b, p, v, i := NestClaims(c, Binding), NestClaims(c, ProducerIdentity), NestClaims(c, Provenance),
                      NestClaims(c, Identity);
    var aliases := [Field(c, Head), Field(c, MeasuredAtCommit), Field(c, MeasuredCommit)];
    DirectIsFirst(c);
    NestIsFirst(c, Binding);
    NestIsFirst(c, ProducerIdentity);
    NestIsFirst(c, Provenance);
    NestIsFirst(c, Identity);
    FirstCommitConcat(d, b);
    FirstCommitConcat(d + b, p);
    FirstCommitConcat(d + b + p, v);
    FirstCommitConcat(d + b + p + v, i);
    FirstCommitConcat(d + b + p + v + i, aliases);
    FirstOfFour(Field(c, Head), Field(c, MeasuredAtCommit), Field(c, MeasuredCommit), Null);
    assert [Field(c, Head), Field(c, MeasuredAtCommit), Field(c, MeasuredCommit), Null] == aliases + [Null];
    FirstCommitConcat(aliases, [Null]);
    assert FirstCommit([Null]) == None;
  }

  /** The commit a cell claims is the first full commit in the list of all places that may name one: of the
      outermost cell its own fields, its nested blocks and the aliases, then those of the measurement inside. */
  lemma {:induction false} CommitIsFirst(j: Json)
    ensures MeasurementCommit(j) == FirstCommit(Claims(Chain(j)))
  {
    if j.Obj? {
      var c, cells := j.fields, Chain(j);
      OwnIsFirst(c);
      FirstCommitConcat(OwnClaims(c), Claims(cells[1..]));
      assert OwnClaim(c) == None ==> NestCommit(c, ProducerIdentity) == None;
      if Field(c, Measurement).Obj? {
        CommitIsFirst(c[Measurement]);
        assert cells[1..] == Chain(c[Measurement]);
      } else {
        assert cells[1..] == [];
      }
    }
  }

  /** A status may be padded with blanks and written in small letters. */
  lemma StatusIsNormalised(c: Cell)
    requires Field(c, Status) == Str(" measured")
    ensures Claimed(c) == MEASURED && HasValue(Obj(c))
  {
    var s := " measured";
    assert s[1..] == "measured" && DropLeading(s, Blanks) == "measured";
    assert DropTrailing("measured", Blanks) == "measured" && Upper("measured") == MEASURED;
  }

  /** A commit may be wrapped in an object, padded with blanks and written in capitals. */
  lemma WrappedCommit(sha: string)
    requires IsCommit(sha)
    ensures AsCommit(Str(sha)) == AsCommit(Obj(map[Value := Str(sha)])) == Some(sha)
    ensures AsCommit(Str(" " + Upper(sha))) == Some(sha)
  {
    LowerFixed(sha);
    var up := Upper(sha);
    assert Lower(up) == sha && up[0] != ' ' && !IsSpace(up[0]) && !IsSpace(up[39]);
    assert (" " + up)[1..] == up;
    assert DropLeading(" " + up, Blanks) == DropLeading(up, Blanks) == up && DropTrailing(up, Blanks) == up;
  }
}
