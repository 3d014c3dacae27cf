/** The line-driven Cargo.lock parser of the licence inventory. */
module CargoLock {
  import opened Common

  /** The dictionary of one package while its lines are read. */
  datatype Fields = Fields(name: Option<string>, version: Option<string>, source: Option<string>,
                           checksum: Option<string>)

  const EMPTY := Fields(None, None, None, None)

  predicate Filled(v: Option<string>) {
    v.Some? && v.value != ""
  }

  predicate Complete(f: Fields) {
    Filled(f.name) && Filled(f.version)
  }

  function AfterEquals(s: string): string {
    if s == [] then [] else if s[0] == '=' then s[1..] else AfterEquals(s[1..])
  }

  function Value(line: string): string {
    Strip(Strip(AfterEquals(line)), Quotes)
  }

  datatype Key = NameKey | VersionKey | SourceKey | ChecksumKey

  function Text(key: Key): (r: string)
    ensures r != "" && '=' !in r
  {
    match key
    case NameKey => "name"
    case VersionKey => "version"
    case SourceKey => "source"
    case ChecksumKey => "checksum"
  }

  const PACKAGE := "[[package]]"

  datatype Kind = Header | Other | Field(key: Key, value: string) | Skip

  /** What a line is, in the order the parser tests it. */
  function Classify(line: string): Kind {
    if Strip(line) == PACKAGE then Header
    else if StartsWith(line, "[") && !StartsWith(line, "[[") then Other
    else if StartsWith(line, "name = ") then Field(NameKey, Value(line))
    else if StartsWith(line, "version = ") then Field(VersionKey, Value(line))
    else if StartsWith(line, "source = ") then Field(SourceKey, Value(line))
    else if StartsWith(line, "checksum = ") then Field(ChecksumKey, Value(line))
    else Skip
  }

  function SetField(f: Fields, key: Key, v: string): Fields {
    match key
    case NameKey => f.(name := Some(v))
    case VersionKey => f.(version := Some(v))
    case SourceKey => f.(source := Some(v))
    case ChecksumKey => f.(checksum := Some(v))
  }

  datatype State = State(packages: seq<Fields>, current: Fields, inPackage: bool)

  /** The packages known once the open one is flushed. */
  function Flushed(st: State): seq<Fields> {
    if Complete(st.current) then st.packages + [st.current] else st.packages
  }

  function Step(st: State, k: Kind): State {
    if k.Header? then State(Flushed(st), EMPTY, true)
    else if !st.inPackage then st
    else if k.Other? then State(Flushed(st), EMPTY, false)
    else if k.Field? then st.(current := SetField(st.current, k.key, k.value))
    else st
  }

  function Run(st: State, ks: seq<Kind>): State
    decreases |ks|
  {
    if ks == [] then st else Run(Step(st, ks[0]), ks[1..])
  }

  function Kinds(lines: seq<string>, classify: string -> Kind): (ks: seq<Kind>)
    ensures |ks| == |lines|
  {
    seq(|lines|, i requires 0 <= i < |lines| => classify(lines[i]))
  }

  const START := State([], EMPTY, false)

  function Parse(lines: seq<string>): seq<Fields> {
    Flushed(Run(START, Kinds(lines, Classify)))
  }

  method ParseCargoLock(lines: seq<string>) returns (packages: seq<Fields>)
    ensures packages == Parse(lines)
  {
    packages := [];
    var current := EMPTY;
    var inPackage := false;
    ghost var ks := Kinds(lines, Classify);
    for i := 0 to |lines|
      invariant Run(State(packages, current, inPackage), ks[i..]) == Run(START, ks)
    {
      var kind := Classify(lines[i]);
      assert ks[i..][0] == kind && ks[i..][1..] == ks[i + 1..];
      if kind.Header? {
        if Complete(current) { packages := packages + [current]; }
        current := EMPTY;
        inPackage := true;
        continue;
      }
      if !inPackage {
        continue;
      }
      if kind.Other? {
        if Complete(current) { packages := packages + [current]; }
        current := EMPTY;
        inPackage := false;
        continue;
      }
      if kind.Field? {
        current := SetField(current, kind.key, kind.value);
      }
    }
    if Complete(current) {
      packages := packages + [current];
    }
  }

  // ---------------------------------------------------------------- printing

  /** A package block: its fields, then whatever follows up to the next package header.  That is dependency
      arrays, blank lines and comments, and any other sections of the file, with their lines. */
  datatype Block = Block(name: string, version: string, source: Option<string>, checksum: Option<string>,
                         rest: seq<string>)

  function FieldLine(key: Key, v: string): string {
    Text(key) + " = \"" + v + "\""
  }

  function OptionalLine(key: Key, v: Option<string>): seq<string> {
    if v.Some? then [FieldLine(key, v.value)] else []
  }

  /** The lines that set the fields of a block. */
  function FieldLines(b: Block): seq<string> {
    OptionalLine(NameKey, Some(b.name)) + OptionalLine(VersionKey, Some(b.version))
    + OptionalLine(SourceKey, b.source) + OptionalLine(ChecksumKey, b.checksum)
  }

  function PrintBlock(b: Block): seq<string> {
    [PACKAGE] + FieldLines(b) + b.rest
  }

  function Print(blocks: seq<Block>): seq<string> {
    if blocks == [] then [] else PrintBlock(blocks[0]) + Print(blocks[1..])
  }

  function PackageOf(b: Block): Fields {
    Fields(Some(b.name), Some(b.version), b.source, b.checksum)
  }

  function Packages(blocks: seq<Block>): (ps: seq<Fields>)
    ensures |ps| == |blocks|
    ensures forall i | 0 <= i < |blocks| :: ps[i] == PackageOf(blocks[i])
  {
    if blocks == [] then [] else [PackageOf(blocks[0])] + Packages(blocks[1..])
  }

  predicate NoHeaders(lines: seq<string>, classify: string -> Kind) {
    forall i | 0 <= i < |lines| :: !classify(lines[i]).Header?
  }

  // ---------------------------------------------------------------- lines

  lemma {:induction false} AfterKey(key: string, rest: string)
    requires '=' !in key
    ensures AfterEquals(key + "=" + rest) == rest
  {
    if key != [] {
      assert (key + "=" + rest)[1..] == key[1..] + "=" + rest;
      AfterKey(key[1..], rest);
    } else {
      assert key + "=" + rest == "=" + rest;
    }
  }

  lemma {:induction false} DropTrailingSnoc(s: string)
    ensures DropTrailing(s + "\"", Quotes) == DropTrailing(s, Quotes)
  {
    assert (s + "\"")[..|s|] == s;
  }

  /** Quotes put after a text do not change what is left once quotes are stripped. */
  lemma {:induction false} StripQuoteAfter(v: string)
    ensures Strip(v + "\"", Quotes) == Strip(v, Quotes)
  {
    if v != "" && v[0] == '"' {
      assert (v + "\"")[1..] == v[1..] + "\"";
      StripQuoteAfter(v[1..]);
    } else if v == "" {
      assert (v + "\"")[1..] == "";
      assert DropLeading(v + "\"", Quotes) == DropLeading("", Quotes) == "";
    } else {
      assert (v + "\"")[0] == v[0];
      assert DropLeading(v + "\"", Quotes) == v + "\"" && DropLeading(v, Quotes) == v;
      DropTrailingSnoc(v);
    }
  }

  lemma QuotedValue(v: string)
    ensures Strip(Strip(" \"" + v + "\""), Quotes) == Strip(v, Quotes)
  {
    var q := "\"" + v + "\"";
    assert (" \"" + v + "\"")[1..] == q;
    assert DropLeading(" \"" + v + "\"", Blanks) == q;
    assert q[|q| - 1] == '"' && !IsSpace('"');
    assert DropTrailing(q, Blanks) == q;
    assert q[1..] == v + "\"";
    assert DropLeading(q, Quotes) == DropLeading(v + "\"", Quotes);
    StripQuoteAfter(v);
  }

  lemma FieldValue(key: Key, v: string)
    ensures Value(FieldLine(key, v)) == Strip(v, Quotes)
  {
    assert FieldLine(key, v) == (Text(key) + " ") + "=" + (" \"" + v + "\"");
    AfterKey(Text(key) + " ", " \"" + v + "\"");
    QuotedValue(v);
  }

  lemma FieldLineIsPlain(key: Key, v: string)
    ensures Strip(FieldLine(key, v)) != PACKAGE && !StartsWith(FieldLine(key, v), "[")
  {
    var line := FieldLine(key, v);
    assert line[0] == Text(key)[0] && !IsSpace(line[0]);
    assert DropLeading(line, Blanks) == line;
    assert Strip(line) <= line && PACKAGE[0] == '[';
  }

  lemma ClassifyByPrefix(line: string, key: Key)
    requires Strip(line) != PACKAGE && !StartsWith(line, "[") && StartsWith(line, Text(key) + " = ")
    ensures Classify(line) == Field(key, Value(line))
  {
    assert line[0] == Text(key)[0];
  }

  /** A printed field line is read as its own key with the printed value, less any quotes at its ends. */
  lemma ReadsField(key: Key, v: string)
    ensures Classify(FieldLine(key, v)) == Field(key, Strip(v, Quotes))
  {
    FieldLineIsPlain(key, v);
    assert FieldLine(key, v)[..|Text(key)| + 3] == Text(key) + " = ";
    ClassifyByPrefix(FieldLine(key, v), key);
    FieldValue(key, v);
  }

  /** No quote at either end: the texts that stripping quotes leaves alone. */
  predicate Bare(v: string) {
    v == "" || (v[0] != '"' && v[|v| - 1] != '"')
  }

  lemma StripIsBare(v: string)
    ensures Bare(Strip(v, Quotes)) && (Strip(v, Quotes) == v <==> Bare(v))
  {
    var inner := DropLeading(v, Quotes);
    assert Strip(v, Quotes) <= inner;
    if Bare(v) {
      assert inner == v && DropTrailing(v, Quotes) == v;
    }
  }

  // ---------------------------------------------------------------- what the reader makes of a block

  predicate Quoted(key: Key, v: string, classify: string -> Kind) {
    classify(FieldLine(key, v)) == Field(key, Strip(v, Quotes))
  }

  predicate BareKind(k: Kind) {
    k.Field? ==> Bare(k.value)
  }

  predicate ReadsBare(line: string, classify: string -> Kind) {
    BareKind(classify(line))
  }

  /** A line reader that knows the package header and printed field lines, and strips quotes. */
  ghost predicate Faithful(classify: string -> Kind) {
    && classify(PACKAGE) == Header
    && (forall key, v :: Quoted(key, v, classify))
    && (forall line :: ReadsBare(line, classify))
  }

  lemma ClassifyIsFaithful()
    ensures Faithful(Classify)
  {
    assert Classify(PACKAGE) == Header;
    forall key, v ensures Quoted(key, v, Classify) { ReadsField(key, v); }
    forall line ensures ReadsBare(line, Classify) { StripIsBare(Strip(AfterEquals(line))); }
  }

  function Stripped(v: Option<string>): Option<string> {
    if v.Some? then Some(Strip(v.value, Quotes)) else None
  }

  /** The fields once a block's own lines are read. */
  function Opened(b: Block): Fields {
    Fields(Some(Strip(b.name, Quotes)), Some(Strip(b.version, Quotes)), Stripped(b.source), Stripped(b.checksum))
  }

  /** The fields at the flush: later field lines overwrite, until a section closes the package. */
  function Settle(f: Fields, ks: seq<Kind>): Fields
    decreases |ks|
  {
    if ks == [] || ks[0].Other? then f
    else if ks[0].Field? then Settle(SetField(f, ks[0].key, ks[0].value), ks[1..])
    else Settle(f, ks[1..])
  }

  function Kept(f: Fields): seq<Fields> {
    if Complete(f) then [f] else []
  }

  /** What the reader keeps of a block. */
  function ReadOf(b: Block, classify: string -> Kind): seq<Fields> {
    Kept(Settle(Opened(b), Kinds(b.rest, classify)))
  }

  function ReadAll(blocks: seq<Block>, classify: string -> Kind): seq<Fields> {
    if blocks == [] then [] else ReadOf(blocks[0], classify) + ReadAll(blocks[1..], classify)
  }

  lemma {:induction false} RunConcat(st: State, a: seq<Kind>, b: seq<Kind>)
    ensures Run(st, a + b) == Run(Run(st, a), b)
    decreases |a|
  {
    if a == [] {
      assert a + b == b;
    } else {
      assert (a + b)[1..] == a[1..] + b;
      RunConcat(Step(st, a[0]), a[1..], b);
    }
  }

  lemma KindsConcat(a: seq<string>, b: seq<string>, classify: string -> Kind)
    ensures Kinds(a + b, classify) == Kinds(a, classify) + Kinds(b, classify)
  {
  }

  lemma RunSplit(st: State, a: seq<string>, b: seq<string>, classify: string -> Kind)
    ensures Run(st, Kinds(a + b, classify)) == Run(Run(st, Kinds(a, classify)), Kinds(b, classify))
  {
    KindsConcat(a, b, classify);
    RunConcat(st, Kinds(a, classify), Kinds(b, classify));
  }

  /** Outside a package only a header changes anything. */
  lemma {:induction false} RunIdle(st: State, ks: seq<Kind>)
    requires !st.inPackage && forall i | 0 <= i < |ks| :: !ks[i].Header?
    ensures Run(st, ks) == st
    decreases |ks|
  {
    if ks != [] {
      assert Step(st, ks[0]) == st;
      RunIdle(st, ks[1..]);
    }
  }

  /** Nothing is open outside a package. */
  predicate Tidy(st: State) {
    !st.inPackage ==> st.current == EMPTY
  }

  /** The lines after a package's fields leave exactly the settled fields to be flushed. */
  lemma {:induction false} RunRest(st: State, ks: seq<Kind>)
    requires st.inPackage && forall i | 0 <= i < |ks| :: !ks[i].Header?
    ensures Tidy(Run(st, ks)) && Flushed(Run(st, ks)) == st.packages + Kept(Settle(st.current, ks))
    decreases |ks|
  {
    if ks != [] {
      var next := Step(st, ks[0]);
      if ks[0].Other? {
        RunIdle(next, ks[1..]);
      } else {
        RunRest(next, ks[1..]);
      }
    }
  }

  lemma RunField(st: State, key: Key, v: Option<string>, classify: string -> Kind)
    requires Faithful(classify) && st.inPackage
    ensures Run(st, Kinds(OptionalLine(key, v), classify)) ==
            if v.Some? then st.(current := SetField(st.current, key, Strip(v.value, Quotes))) else st
  {
    if v.Some? { assert Quoted(key, v.value, classify); }
  }

  lemma RunFields(st: State, b: Block, classify: string -> Kind)
    requires Faithful(classify) && st.inPackage && st.current == EMPTY
    ensures Run(st, Kinds(FieldLines(b), classify)) == st.(current := Opened(b))
  {
    var l1, l2 := OptionalLine(NameKey, Some(b.name)), OptionalLine(VersionKey, Some(b.version));
    var l3, l4 := OptionalLine(SourceKey, b.source), OptionalLine(ChecksumKey, b.checksum);
    RunField(st, NameKey, Some(b.name), classify);
    var s1 := st.(current := EMPTY.(name := Some(Strip(b.name, Quotes))));
    RunSplit(st, l1, l2, classify);
    RunField(s1, VersionKey, Some(b.version), classify);
    var s2 := s1.(current := s1.current.(version := Some(Strip(b.version, Quotes))));
    RunSplit(st, l1 + l2, l3, classify);
    RunField(s2, SourceKey, b.source, classify);
    var s3 := s2.(current := s2.current.(source := Stripped(b.source)));
    RunSplit(st, l1 + l2 + l3, l4, classify);
    RunField(s3, ChecksumKey, b.checksum, classify);
  }

  lemma RunHeader(st: State, classify: string -> Kind)
    requires Faithful(classify)
    ensures Run(st, Kinds([PACKAGE], classify)) == State(Flushed(st), EMPTY, true)
  {
    assert Kinds([PACKAGE], classify) == [Header];
  }

  /** A block flushes what was open and leaves what is kept of it to be flushed. */
  lemma {:induction false} RunBlock(st: State, b: Block, classify: string -> Kind) returns (st': State)
    requires Faithful(classify) && NoHeaders(b.rest, classify)
    ensures st' == Run(st, Kinds(PrintBlock(b), classify))
    ensures Tidy(st') && Flushed(st') == Flushed(st) + ReadOf(b, classify)
  {
    var mid := State(Flushed(st), Opened(b), true);
    RunHeader(st, classify);
    RunSplit(st, [PACKAGE], FieldLines(b), classify);
    RunFields(State(Flushed(st), EMPTY, true), b, classify);
    RunSplit(st, [PACKAGE] + FieldLines(b), b.rest, classify);
    RunRest(mid, Kinds(b.rest, classify));
    st' := Run(mid, Kinds(b.rest, classify));
  }

  /** Whichever of the three flush points closes each block, the reader keeps of it exactly its settled fields. */
  lemma {:induction false} RunBlocks(st: State, blocks: seq<Block>, classify: string -> Kind)
    requires Faithful(classify) && forall i | 0 <= i < |blocks| :: NoHeaders(blocks[i].rest, classify)
    requires Tidy(st)
    ensures Flushed(Run(st, Kinds(Print(blocks), classify))) == Flushed(st) + ReadAll(blocks, classify)
    decreases |blocks|
  {
    if blocks == [] {
      assert Kinds(Print(blocks), classify) == [];
    } else {
      RunSplit(st, PrintBlock(blocks[0]), Print(blocks[1..]), classify);
      var st' := RunBlock(st, blocks[0], classify);
      RunBlocks(st', blocks[1..], classify);
      ConcatAssoc(Flushed(st), ReadOf(blocks[0], classify), ReadAll(blocks[1..], classify));
    }
  }

  lemma {:induction false} ReadsOn(st: State, preamble: seq<string>, blocks: seq<Block>, classify: string -> Kind)
    requires Faithful(classify) && NoHeaders(preamble, classify) && !st.inPackage && st.current == EMPTY
    requires forall i | 0 <= i < |blocks| :: NoHeaders(blocks[i].rest, classify)
    ensures Flushed(Run(st, Kinds(preamble + Print(blocks), classify))) == st.packages + ReadAll(blocks, classify)
  {
    RunSplit(st, preamble, Print(blocks), classify);
    RunPreamble(st, preamble, classify);
    RunBlocks(st, blocks, classify);
  }

  lemma {:induction false} RunPreamble(st: State, preamble: seq<string>, classify: string -> Kind)
    requires !st.inPackage && NoHeaders(preamble, classify)
    ensures Run(st, Kinds(preamble, classify)) == st
  {
    RunIdle(st, Kinds(preamble, classify));
  }

  lemma {:induction false} ReadsAs(preamble: seq<string>, blocks: seq<Block>, classify: string -> Kind)
    requires Faithful(classify) && NoHeaders(preamble, classify)
    requires forall i | 0 <= i < |blocks| :: NoHeaders(blocks[i].rest, classify)
    ensures Flushed(Run(START, Kinds(preamble + Print(blocks), classify))) == ReadAll(blocks, classify)
  {
    ReadsOn(START, preamble, blocks, classify);
    assert [] + ReadAll(blocks, classify) == ReadAll(blocks, classify);
  }

  // ---------------------------------------------------------------- when a lock file reads back

  predicate BareFields(f: Fields) {
    && (f.name.Some? ==> Bare(f.name.value)) && (f.version.Some? ==> Bare(f.version.value))
    && (f.source.Some? ==> Bare(f.source.value)) && (f.checksum.Some? ==> Bare(f.checksum.value))
  }

  /** A block survives: it has a name and a version, no value has a quote at its ends, and the field lines
      that follow before a section closes the package leave its fields as they were. */
  predicate Intact(b: Block, classify: string -> Kind) {
    && b.name != "" && b.version != "" && BareFields(PackageOf(b))
    && Settle(PackageOf(b), Kinds(b.rest, classify)) == PackageOf(b)
  }

  lemma OpenedIff(b: Block)
    ensures BareFields(Opened(b)) && (Opened(b) == PackageOf(b) <==> BareFields(PackageOf(b)))
  {
    StripIsBare(b.name);
    StripIsBare(b.version);
    if b.source.Some? { StripIsBare(b.source.value); }
    if b.checksum.Some? { StripIsBare(b.checksum.value); }
  }

  lemma {:induction false} SettleIsBare(f: Fields, ks: seq<Kind>)
    requires BareFields(f) && forall i | 0 <= i < |ks| :: BareKind(ks[i])
    ensures BareFields(Settle(f, ks))
    decreases |ks|
  {
    if ks != [] && !ks[0].Other? {
      SettleIsBare(if ks[0].Field? then SetField(f, ks[0].key, ks[0].value) else f, ks[1..]);
    }
  }

  lemma {:induction false} BlockReadsBackIff(b: Block, classify: string -> Kind)
    requires Faithful(classify)
    ensures ReadOf(b, classify) == [PackageOf(b)] <==> Intact(b, classify)
  {
    var ks := Kinds(b.rest, classify);
    OpenedIff(b);
    forall i | 0 <= i < |ks| ensures BareKind(ks[i]) { assert ReadsBare(b.rest[i], classify); }
    SettleIsBare(Opened(b), ks);
    if ReadOf(b, classify) == [PackageOf(b)] {
      assert Settle(Opened(b), ks) == PackageOf(b) by { assert [Settle(Opened(b), ks)][0] == [PackageOf(b)][0]; }
    }
  }

  lemma {:induction false} AllReadBackIff(blocks: seq<Block>, classify: string -> Kind)
    ensures |ReadAll(blocks, classify)| <= |blocks|
    ensures ReadAll(blocks, classify) == Packages(blocks) <==>
            forall i | 0 <= i < |blocks| :: ReadOf(blocks[i], classify) == [PackageOf(blocks[i])]
  {
    if blocks != [] {
      var rest := blocks[1..];
      AllReadBackIff(rest, classify);
      HeadAndTail(ReadOf(blocks[0], classify), ReadAll(rest, classify), PackageOf(blocks[0]), Packages(rest));
      assert forall i | 0 <= i < |rest| :: rest[i] == blocks[i + 1];
    }
  }

  lemma HeadAndTail(a: seq<Fields>, rest: seq<Fields>, p: Fields, ps: seq<Fields>)
    requires |a| <= 1 && |rest| <= |ps|
    ensures a + rest == [p] + ps <==> a == [p] && rest == ps
  {
    if a + rest == [p] + ps {
      assert |a| + |rest| == 1 + |ps|;
      assert a[0] == (a + rest)[0] == p;
      assert rest == (a + rest)[1..] == ([p] + ps)[1..] == ps;
    }
  }

  /** Printing any blocks after any preamble and parsing the text back returns their packages, in order, none
      lost or repeated, if and only if every block is intact. */
  lemma {:induction false} LockRoundTripIff(preamble: seq<string>, blocks: seq<Block>)
    requires NoHeaders(preamble, Classify) && forall i | 0 <= i < |blocks| :: NoHeaders(blocks[i].rest, Classify)
    ensures Parse(preamble + Print(blocks)) == Packages(blocks) <==>
            forall i | 0 <= i < |blocks| :: Intact(blocks[i], Classify)
  {
    ClassifyIsFaithful();
    ReadsBackIff(preamble, blocks, Classify);
  }

  lemma {:induction false} ReadsBackIff(preamble: seq<string>, blocks: seq<Block>, classify: string -> Kind)
    requires Faithful(classify) && NoHeaders(preamble, classify)
    requires forall i | 0 <= i < |blocks| :: NoHeaders(blocks[i].rest, classify)
    ensures Flushed(Run(START, Kinds(preamble + Print(blocks), classify))) == Packages(blocks) <==>
            forall i | 0 <= i < |blocks| :: Intact(blocks[i], classify)
  {
    ReadsAs(preamble, blocks, classify);
    AllReadBackIff(blocks, classify);
    forall i | 0 <= i < |blocks|
      ensures ReadOf(blocks[i], classify) == [PackageOf(blocks[i])] <==> Intact(blocks[i], classify)
    {
      BlockReadsBackIff(blocks[i], classify);
    }
  }

  /** Field lines stand only below a single-bracket section header. */
  ghost predicate Calm(lines: seq<string>, classify: string -> Kind) {
    forall i | 0 <= i < |lines| && classify(lines[i]).Field? :: exists j | 0 <= j < i :: classify(lines[j]).Other?
  }

  lemma {:induction false} CalmSettles(f: Fields, lines: seq<string>, classify: string -> Kind)
    requires Calm(lines, classify)
    ensures Settle(f, Kinds(lines, classify)) == f
  {
    if lines != [] && !classify(lines[0]).Other? {
      var tail := lines[1..];
      assert !classify(lines[0]).Field?;
      forall i | 0 <= i < |tail| && classify(tail[i]).Field? ensures exists j | 0 <= j < i :: classify(tail[j]).Other? {
        assert lines[i + 1] == tail[i];
        var j :| 0 <= j < i + 1 && classify(lines[j]).Other?;
        assert tail[j - 1] == lines[j];
      }
      CalmSettles(f, tail, classify);
      assert Kinds(lines, classify)[1..] == Kinds(tail, classify);
    }
  }

  /** So packages with named, quote-free values read back whatever dependency arrays and single-bracket
      sections stand between and after them. */
  lemma {:induction false} LockRoundTrip(preamble: seq<string>, blocks: seq<Block>)
    requires NoHeaders(preamble, Classify) && forall i | 0 <= i < |blocks| :: NoHeaders(blocks[i].rest, Classify)
    requires forall i | 0 <= i < |blocks| ::
               var b := blocks[i]; b.name != "" && b.version != "" && BareFields(PackageOf(b)) && Calm(b.rest, Classify)
    ensures Parse(preamble + Print(blocks)) == Packages(blocks)
  {
    forall i | 0 <= i < |blocks| ensures Intact(blocks[i], Classify) {
      CalmSettles(PackageOf(blocks[i]), blocks[i].rest, Classify);
    }
    LockRoundTripIff(preamble, blocks);
  }

  const PATCH_UNUSED := "[[patch.unused]]"

  lemma PatchHeaderIsSkipped()
    ensures Classify(PATCH_UNUSED) == Skip
  {
    assert PATCH_UNUSED[..2] == "[[" && StartsWith(PATCH_UNUSED, "[[");
    assert DropLeading(PATCH_UNUSED, Blanks) == PATCH_UNUSED && DropTrailing(PATCH_UNUSED, Blanks) == PATCH_UNUSED;
    assert |PATCH_UNUSED| == 16 && |PACKAGE| == 11;
    assert PATCH_UNUSED[0] == '[';
  }

  /** A package followed by an array-table section of unused patches. */
  function Patched(name: string, version: string, other: string, otherVersion: string): Block {
    Block(name, version, None, None, [PATCH_UNUSED, FieldLine(NameKey, other), FieldLine(VersionKey, otherVersion)])
  }

  /** The section does not close the package, so its name and version replace the package's own. */
  lemma {:induction false} PatchReplacesPackage(name: string, version: string, other: string, otherVersion: string)
    requires other != "" && otherVersion != "" && Bare(other) && Bare(otherVersion)
    ensures Parse(Print([Patched(name, version, other, otherVersion)]))
            == [Fields(Some(other), Some(otherVersion), None, None)]
  {
    var b := Patched(name, version, other, otherVersion);
    PatchedKinds(other, otherVersion);
    ClassifyIsFaithful();
    PatchedRead(b, other, otherVersion, Classify);
  }

  lemma PatchedKinds(other: string, otherVersion: string)
    requires Bare(other) && Bare(otherVersion)
    ensures Kinds([PATCH_UNUSED, FieldLine(NameKey, other), FieldLine(VersionKey, otherVersion)], Classify)
            == [Skip, Field(NameKey, other), Field(VersionKey, otherVersion)]
  {
    PatchHeaderIsSkipped();
    ReadsField(NameKey, other);
    ReadsField(VersionKey, otherVersion);
    StripIsBare(other);
    StripIsBare(otherVersion);
  }

  lemma PatchedSettles(f: Fields, other: string, otherVersion: string)
    ensures Settle(f, [Skip, Field(NameKey, other), Field(VersionKey, otherVersion)])
            == f.(name := Some(other), version := Some(otherVersion))
  {
    var named := f.(name := Some(other));
    var k2 := [Field(VersionKey, otherVersion)];
    var k1 := [Field(NameKey, other)] + k2;
    assert k2[1..] == [] && Settle(named, k2) == named.(version := Some(otherVersion));
    assert k1[1..] == k2 && Settle(f, k1) == Settle(named, k2);
    assert ([Skip] + k1)[1..] == k1 && Settle(f, [Skip] + k1) == Settle(f, k1);
    assert [Skip] + k1 == [Skip, Field(NameKey, other), Field(VersionKey, otherVersion)];
  }

  lemma {:induction false} PatchedRead(b: Block, other: string, otherVersion: string, classify: string -> Kind)
    requires Faithful(classify) && other != "" && otherVersion != ""
    requires b.source == None && b.checksum == None
    requires Kinds(b.rest, classify) == [Skip, Field(NameKey, other), Field(VersionKey, otherVersion)]
    ensures Flushed(Run(START, Kinds(Print([b]), classify))) == [Fields(Some(other), Some(otherVersion), None, None)]
  {
    forall i | 0 <= i < |b.rest| ensures !classify(b.rest[i]).Header? {
      assert Kinds(b.rest, classify)[i] == classify(b.rest[i]);
    }
    ReadsAs([], [b], classify);
    assert [] + Print([b]) == Print([b]);
    PatchedSettles(Opened(b), other, otherVersion);
    assert [b][1..] == [] && ReadAll([b][1..], classify) == [];
    assert ReadAll([b], classify) == ReadOf(b, classify) + [] == ReadOf(b, classify);
  }

  /** The concrete file: package a 1 is lost to the unused patch b 2. */
  lemma PatchUnusedLosesPackage()
    ensures var blocks := [Patched("a", "1", "b", "2")];
            && Parse(Print(blocks)) == [Fields(Some("b"), Some("2"), None, None)]
            && Parse(Print(blocks)) != Packages(blocks)
  {
    PatchReplacesPackage("a", "1", "b", "2");
    assert "a"[0] != "b"[0];
  }
}
