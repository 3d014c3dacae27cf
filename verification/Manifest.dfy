/** The mutation manifest and the ingestion of timing campaigns into it. */
module Manifest {
  import opened Common
  import opened Percentiles
  import opened Sorting

  datatype Pathway = PURE | DB | LFS | AGENT | CROSS_PROCESS

  datatype Entry = Entry(source: string, description: string, authority: string, pathway: Pathway,
                         contracts: seq<string>,
                         samples: seq<real>, p50: Option<real>, p90: Option<real>, commit: Option<string>)

  type Entries = map<int, Entry>

  /** One timing record; `pathway` is `None` when the record names no known one, `duration` when it is no number. */
  datatype Record = Record(caseId: int, caught: bool, pathway: Option<Pathway>, duration: Option<real>,
                           source: string, description: string, candidate: string)

  /** A timing file: an aggregate report names its candidate, a plain list of records does not. */
  datatype TimingFile = TimingFile(path: string, candidate: Option<string>, records: seq<Record>)

  // ---------------------------------------------------------------- validity

  predicate ValidEntry(e: Entry) {
    && e.authority != "" && e.contracts != [] && (forall c | c in e.contracts :: c != "")
    && (forall i | 0 <= i < |e.samples| :: e.samples[i] >= 0.0)
    && (e.p50.Some? <==> e.samples != []) && (e.p90.Some? <==> e.samples != [])
    && (e.commit.Some? ==> |e.commit.value| == 40)
  }

  /** The manifest joins the inventory: same ids, same source and description, every entry valid. */
  predicate Valid(m: Entries, inventory: map<int, (string, string)>) {
    && m.Keys == inventory.Keys
    && forall id | id in m :: (m[id].source, m[id].description) == inventory[id] && ValidEntry(m[id])
  }

  // ---------------------------------------------------------------- ingestion

  /** What ingestion carries along: the entries and the one candidate all records must share. */
  datatype State = State(entries: Entries, candidate: Option<string>)

  /** The commit an entry is stamped with: the requested one, or else the records' candidate. */
  function Stamp(commit: Option<string>, candidate: string): string {
    if commit.Some? && commit.value != "" then commit.value else candidate
  }

  function Sampled(e: Entry, r: Record, stamp: string): Entry
    requires r.pathway.Some? && r.duration.Some?
  {
    var samples := e.samples + [r.duration.value];
    e.(samples := samples, pathway := r.pathway.value,
       p50 := Percentile(samples, 0.5), p90 := Percentile(samples, 0.9), commit := Some(stamp))
  }

  predicate Acceptable(st: State, seen: set<int>, reported: Option<string>, r: Record) {
    && r.caseId in st.entries && r.caseId !in seen
    && r.caught && (r.pathway == Some(PURE) || r.pathway == Some(DB))
    && r.duration.Some? && r.duration.value >= 0.0
    && r.source == st.entries[r.caseId].source && r.description == st.entries[r.caseId].description
    && IsCommit(r.candidate)
    && (reported.Some? ==> r.candidate == reported.value)
    && (st.candidate.Some? ==> r.candidate == st.candidate.value)
  }

  function TakeRecord(st: State, r: Record, commit: Option<string>): State
    requires r.caseId in st.entries && r.pathway.Some? && r.duration.Some?
  {
    State(st.entries[r.caseId := Sampled(st.entries[r.caseId], r, Stamp(commit, r.candidate))], Some(r.candidate))
  }

  function Ids(records: seq<Record>): set<int> {
    set r | r in records :: r.caseId
  }

  /** The records of one file, after those of the cases already seen. */
  function TakeRecords(st: State, seen: set<int>, reported: Option<string>, records: seq<Record>,
                       commit: Option<string>): Option<State>
    decreases |records|
  {
    if records == [] then Some(st)
    else if !Acceptable(st, seen, reported, records[0]) then None
    else TakeRecords(TakeRecord(st, records[0], commit), seen + {records[0].caseId}, reported, records[1..], commit)
  }

  function TakeFile(st: State, f: TimingFile, commit: Option<string>, requireComplete: bool): Option<State> {
    var taken := TakeRecords(st, {}, f.candidate, f.records, commit);
    if taken.Some? && (requireComplete ==> Ids(f.records) == st.entries.Keys) then taken else None
  }

  /** The files, after those whose paths were already read; no path may come twice. */
  function TakeFiles(st: State, paths: set<string>, files: seq<TimingFile>, commit: Option<string>,
                     requireComplete: bool): Option<State>
    decreases |files|
  {
    if files == [] then Some(st)
    else if files[0].path in paths then None
    else
      var next := TakeFile(st, files[0], commit, requireComplete);
      if next.None? then None
      else TakeFiles(next.value, paths + {files[0].path}, files[1..], commit, requireComplete)
  }

  function Ingested(entries: Entries, files: seq<TimingFile>, commit: Option<string>,
                    requireComplete: bool): Option<State> {
    var taken := TakeFiles(State(entries, None), {}, files, commit, requireComplete);
    if taken.Some? && (commit.Some? && taken.value.candidate.Some? ==> commit == taken.value.candidate) then taken
       else None
  }

  lemma Unfold(st: State, seen: set<int>, reported: Option<string>, records: seq<Record>, k: nat,
               commit: Option<string>)
    requires k < |records|
    ensures Ids(records[..k + 1]) == Ids(records[..k]) + {records[k].caseId}
    ensures TakeRecords(st, seen, reported, records[k..], commit) ==
            if !Acceptable(st, seen, reported, records[k]) then None
            else TakeRecords(TakeRecord(st, records[k], commit), seen
                             + {records[k].caseId}, reported, records[k + 1..], commit)
  {
    assert records[..k + 1] == records[..k] + [records[k]] && records[k..][1..] == records[k + 1..];
  }

  method IngestFile(st: State, f: TimingFile, commit: Option<string>, requireComplete: bool) returns (r: Option<State>)
    ensures r == TakeFile(st, f, commit, requireComplete)
  {
    var byId, candidate := st.entries, st.candidate;
    var seen: set<int> := {};
    for k := 0 to |f.records|
      invariant TakeRecords(State(byId, candidate), seen, f.candidate, f.records[k..], commit)
             == TakeRecords(st, {}, f.candidate, f.records, commit)
      invariant seen == Ids(f.records[..k]) && byId.Keys == st.entries.Keys
    {
      var rec := f.records[k];
      var here := State(byId, candidate);
      Unfold(here, seen, f.candidate, f.records, k, commit);
      if !Acceptable(here, seen, f.candidate, rec) {
        return None;
      }
      if candidate.None? {
        candidate := Some(rec.candidate);
      }
      seen := seen + {rec.caseId};
      byId := byId[rec.caseId := Sampled(byId[rec.caseId], rec, Stamp(commit, candidate.value))];
      assert State(byId, candidate) == TakeRecord(here, rec, commit);
    }
    assert f.records[..|f.records|] == f.records;
    if requireComplete && seen != byId.Keys {
      return None;
    }
    return Some(State(byId, candidate));
  }

  /** The stored manifest; a refused ingestion ends the process before anything is written. */
  class ManifestFile {
    var entries: Entries

    constructor (m: Entries)
      ensures entries == m
    {
      entries := m;
    }

    method Ingest(files: seq<TimingFile>, commit: Option<string>, requireComplete: bool) returns (ok: bool)
      modifies this
      ensures ok <==> Ingested(old(entries), files, commit, requireComplete).Some?
      ensures entries == if ok then Ingested(old(entries), files, commit, requireComplete).value.entries
              else old(entries)
    {
      var st := State(entries, None);
      var seenPaths: set<string> := {};
      for i := 0 to |files|
        invariant TakeFiles(st, seenPaths, files[i..], commit, requireComplete)
               == TakeFiles(State(old(entries), None), {}, files, commit, requireComplete)
        invariant entries == old(entries)
      {
        assert files[i..][0] == files[i] && files[i..][1..] == files[i + 1..];
        if files[i].path in seenPaths {
          return false;
        }
        seenPaths := seenPaths + {files[i].path};
        var next := IngestFile(st, files[i], commit, requireComplete);
        if next.None? {
          return false;
        }
        st := next.value;
      }
      if commit.Some? && st.candidate.Some? && commit != st.candidate {
        return false;
      }
      entries := st.entries;
      return true;
    }
  }

  // ---------------------------------------------------------------- what an ingestion does

  /** Valid but for the commits, which are settled only when all files are read. */
  predicate Sound(e: Entry) {
    ValidEntry(e.(commit := None))
  }

  /** The percentiles are those of the samples. */
  predicate Summarised(e: Entry) {
    e.p50 == Percentile(e.samples, 0.5) && e.p90 == Percentile(e.samples, 0.9)
  }

  /** `e'` is `e` with these samples added: identity kept, percentiles recomputed, the shared commit stamped. */
  predicate Extends(e: Entry, e': Entry, added: seq<real>, stamp: string) {
    && e'.source == e.source && e'.description == e.description
    && e'.authority == e.authority && e'.contracts == e.contracts
    && e'.samples == e.samples + added
    && (Sound(e) ==> Sound(e'))
    && if added == [] then e' == e
       else Summarised(e') && e'.commit == Some(stamp) && (e'.pathway == PURE || e'.pathway == DB)
  }

  /** The samples the records hold for a mutation, in order. */
  function SamplesFor(records: seq<Record>, id: int): seq<real> {
    if records == [] then []
    else if records[0].caseId == id
            && records[0].duration.Some? then [records[0].duration.value] + SamplesFor(records[1..], id)
    else SamplesFor(records[1..], id)
  }

  function FilesSamples(files: seq<TimingFile>, id: int): seq<real> {
    if files == [] then [] else SamplesFor(files[0].records, id) + FilesSamples(files[1..], id)
  }

  function StampOf(st: State, commit: Option<string>): string {
    Stamp(commit, if st.candidate.Some? then st.candidate.value else "")
  }

  lemma OneSample(e: Entry, r: Record, stamp: string)
    requires (r.pathway == Some(PURE) || r.pathway == Some(DB)) && r.duration.Some? && r.duration.value >= 0.0
    ensures Extends(e, Sampled(e, r, stamp), [r.duration.value], stamp)
    ensures Some(Sampled(e, r, stamp).pathway) == r.pathway
  {
  }

  lemma ExtendsTwice(e: Entry, e1: Entry, e2: Entry, a: seq<real>, b: seq<real>, stamp: string)
    requires Extends(e, e1, a, stamp) && Extends(e1, e2, b, stamp)
    ensures Extends(e, e2, a + b, stamp)
  {
    assert e.samples + a + b == e.samples + (a + b);
    assert a + b == [] <==> a == [] && b == [];
  }

  /** All records agree on one candidate. */
  predicate OneCandidate(records: seq<Record>, candidate: Option<string>) {
    forall i | 0 <= i < |records| :: Some(records[i].candidate) == candidate
  }

  predicate CandidateKept(st: State, st': State) {
    && (st.candidate.Some? ==> st'.candidate == st.candidate)
    && (st'.candidate.Some? && st.candidate.None? ==> IsCommit(st'.candidate.value))
  }

  lemma {:induction false} SeenAddsNothing(st: State, seen: set<int>, reported: Option<string>, records: seq<Record>,
                                           commit: Option<string>, id: int)
    requires TakeRecords(st, seen, reported, records, commit).Some? && id in seen
    ensures SamplesFor(records, id) == []
    decreases |records|
  {
    if records != [] {
      SeenAddsNothing(TakeRecord(st, records[0], commit), seen
                      + {records[0].caseId}, reported, records[1..], commit, id);
    }
  }

  lemma {:induction false} RecordsKeepCandidate(st: State, seen: set<int>, reported: Option<string>,
                                                records: seq<Record>, commit: Option<string>)
    requires TakeRecords(st, seen, reported, records, commit).Some?
    ensures var st' := TakeRecords(st, seen, reported, records, commit).value;
            && st'.entries.Keys == st.entries.Keys && CandidateKept(st, st') && OneCandidate(records, st'.candidate)
            && (records == [] ==> st' == st)
    decreases |records|
  {
    if records != [] {
      var next := TakeRecord(st, records[0], commit);
      RecordsKeepCandidate(next, seen + {records[0].caseId}, reported, records[1..], commit);
    }
  }

  /** One record changes only its own entry, and extends that one by its sample. */
  lemma RecordExtends(st: State, seen: set<int>, reported: Option<string>, r: Record, commit: Option<string>, id: int)
    requires Acceptable(st, seen, reported, r) && id in st.entries
    ensures var next := TakeRecord(st, r, commit);
            && id in next.entries
            && Extends(st.entries[id], next.entries[id], if r.caseId == id then [r.duration.value] else [],
                       Stamp(commit, r.candidate))
  {
    if r.caseId == id { OneSample(st.entries[id], r, Stamp(commit, r.candidate)); }
  }

  lemma SamplesOfHead(records: seq<Record>, id: int)
    requires records != [] && records[0].duration.Some?
    ensures SamplesFor(records, id)
            == (if records[0].caseId == id then [records[0].duration.value] else []) + SamplesFor(records[1..], id)
  {
  }

  /** Taking one file's records extends every entry by exactly the samples they hold for it. */
  lemma {:induction false} RecordsExtend(st: State, seen: set<int>, reported: Option<string>, records: seq<Record>,
                                         commit: Option<string>, id: int)
    requires TakeRecords(st, seen, reported, records, commit).Some? && id in st.entries
    ensures var st' := TakeRecords(st, seen, reported, records, commit).value;
            id in st'.entries && Extends(st.entries[id], st'.entries[id], SamplesFor(records, id), StampOf(st', commit))
    decreases |records|
  {
    if records != [] {
      var r, next, seen' := records[0], TakeRecord(st, records[0], commit), seen + {records[0].caseId};
      var st' := TakeRecords(next, seen', reported, records[1..], commit).value;
      RecordExtends(st, seen, reported, r, commit, id);
      RecordsExtend(next, seen', reported, records[1..], commit, id);
      RecordsKeepCandidate(next, seen', reported, records[1..], commit);
      assert StampOf(st', commit) == Stamp(commit, r.candidate);
      SamplesOfHead(records, id);
      ExtendsTwice(st.entries[id], next.entries[id], st'.entries[id],
                   if r.caseId == id then [r.duration.value] else [], SamplesFor(records[1..], id),
                   StampOf(st', commit));
    }
  }

  lemma IdsOfHead(records: seq<Record>)
    requires records != []
    ensures Ids(records) == {records[0].caseId} + Ids(records[1..])
  {
    assert records == [records[0]] + records[1..];
  }

  lemma {:induction false} SamplesInFile(st: State, seen: set<int>, reported: Option<string>, records: seq<Record>,
                                         commit: Option<string>, id: int)
    requires TakeRecords(st, seen, reported, records, commit).Some?
    ensures |SamplesFor(records, id)| == if id in Ids(records) then 1 else 0
    decreases |records|
  {
    if records != [] {
      var next, seen' := TakeRecord(st, records[0], commit), seen + {records[0].caseId};
      SamplesInFile(next, seen', reported, records[1..], commit, id);
      IdsOfHead(records);
      if records[0].caseId == id {
        SeenAddsNothing(next, seen', reported, records[1..], commit, id);
      }
    }
  }

  predicate AllOneCandidate(files: seq<TimingFile>, candidate: Option<string>) {
    forall i | 0 <= i < |files| :: OneCandidate(files[i].records, candidate)
  }

  lemma {:induction false} FilesKeepCandidate(st: State, paths: set<string>, files: seq<TimingFile>,
                                              commit: Option<string>, complete: bool)
    requires TakeFiles(st, paths, files, commit, complete).Some?
    ensures var st' := TakeFiles(st, paths, files, commit, complete).value;
            st'.entries.Keys == st.entries.Keys && CandidateKept(st, st') && AllOneCandidate(files, st'.candidate)
    decreases |files|
  {
    if files != [] {
      var next := TakeFile(st, files[0], commit, complete).value;
      RecordsKeepCandidate(st, {}, files[0].candidate, files[0].records, commit);
      FilesKeepCandidate(next, paths + {files[0].path}, files[1..], commit, complete);
      assert OneCandidate(files[0].records, TakeFiles(st, paths, files, commit, complete).value.candidate);
    }
  }

  lemma {:induction false} FilesExtend(st: State, paths: set<string>, files: seq<TimingFile>, commit: Option<string>,
                                       complete: bool, id: int)
    requires TakeFiles(st, paths, files, commit, complete).Some? && id in st.entries
    ensures var st' := TakeFiles(st, paths, files, commit, complete).value;
            id in st'.entries && Extends(st.entries[id], st'.entries[id], FilesSamples(files, id), StampOf(st', commit))
    ensures complete ==> |FilesSamples(files, id)| == |files|
    decreases |files|
  {
    if files != [] {
      var f, next := files[0], TakeFile(st, files[0], commit, complete).value;
      RecordsKeepCandidate(st, {}, f.candidate, f.records, commit);
      RecordsExtend(st, {}, f.candidate, f.records, commit, id);
      SamplesInFile(st, {}, f.candidate, f.records, commit, id);
      FilesExtend(next, paths + {f.path}, files[1..], commit, complete, id);
      FilesKeepCandidate(next, paths + {f.path}, files[1..], commit, complete);
      var st' := TakeFiles(st, paths, files, commit, complete).value;
      assert next.candidate.Some? ==> StampOf(next, commit) == StampOf(st', commit);
      assert next.candidate.None? ==> f.records == [];
      ExtendsTwice(st.entries[id], next.entries[id], st'.entries[id], SamplesFor(f.records, id),
                   FilesSamples(files[1..], id), StampOf(st', commit));
    }
  }

  /** Every accepted ingestion: the manifest stays valid, each mutation gains exactly the samples the files
      hold for it (one per file when files must be complete), and all records share one candidate, which is
      the commit stamped on every touched entry. */
  lemma IngestionIsSound(m: Entries, inventory: map<int, (string, string)>, files: seq<TimingFile>,
                         commit: Option<string>, complete: bool)
    requires Valid(m, inventory) && Ingested(m, files, commit, complete).Some?
    ensures var st := Ingested(m, files, commit, complete).value;
            && Valid(st.entries, inventory)
            && AllOneCandidate(files, st.candidate)
            && forall id | id in m ::
                 && st.entries[id].samples == m[id].samples + FilesSamples(files, id)
                 && (complete ==> |FilesSamples(files, id)| == |files|)
                 && (FilesSamples(files, id) != [] ==>
                      Summarised(st.entries[id]) && st.entries[id].commit == st.candidate
                      && (st.entries[id].pathway == PURE || st.entries[id].pathway == DB))
                 && (FilesSamples(files, id) == [] ==> st.entries[id] == m[id])
  {
    var start := State(m, None);
    var st := Ingested(m, files, commit, complete).value;
    FilesKeepCandidate(start, {}, files, commit, complete);
    forall id | id in m
      ensures Extends(m[id], st.entries[id], FilesSamples(files, id), StampOf(st, commit))
      ensures complete ==> |FilesSamples(files, id)| == |files|
      ensures FilesSamples(files, id) != [] ==> st.candidate.Some?
    {
      FilesExtend(start, {}, files, commit, complete, id);
      NoCandidateNoSamples(files, st.candidate, id);
    }
    forall id | id in m ensures ValidEntry(st.entries[id]) {
      SoundIsValid(m[id], st.entries[id], FilesSamples(files, id), st, commit);
    }
  }

  lemma SoundIsValid(e: Entry, e': Entry, added: seq<real>, st: State, commit: Option<string>)
    requires ValidEntry(e) && Extends(e, e', added, StampOf(st, commit))
    requires added != [] ==>
               st.candidate.Some? && IsCommit(st.candidate.value) && (commit.Some? ==> commit == st.candidate)
    ensures ValidEntry(e') && (added != [] ==> e'.commit == st.candidate)
  {
  }

  lemma {:induction false} NoCandidateNoSamples(files: seq<TimingFile>, candidate: Option<string>, id: int)
    requires AllOneCandidate(files, candidate)
    ensures FilesSamples(files, id) != [] ==> candidate.Some?
  {
    if files != [] {
      assert OneCandidate(files[0].records, candidate);
      if files[0].records != [] { assert Some(files[0].records[0].candidate) == candidate; }
      assert AllOneCandidate(files[1..], candidate);
      NoCandidateNoSamples(files[1..], candidate, id);
    }
  }

  /** After an accepted ingestion every touched entry has its median and its 90th percentile between two of its
      samples, the one not above the other; for suitable counts they are the samples at half and at nine tenths
      of the way through the ordered list. */
  lemma IngestedPercentiles(e: Entry, m: nat)
    requires Summarised(e) && e.samples != []
    ensures |e.samples| == 2 * m + 1 ==> e.p50 == Some(Sort(e.samples, RealLe)[m])
    ensures |e.samples| == 10 * m + 1 ==> e.p90 == Some(Sort(e.samples, RealLe)[9 * m])
    ensures e.p50.Some? && e.p90.Some? && e.p50.value <= e.p90.value
    ensures exists lo, hi | lo in e.samples && hi in e.samples :: lo <= e.p50.value && e.p90.value <= hi
  {
    MedianIsMiddle(e.samples, m);
    if |e.samples| == 10 * m + 1 { NinetiethIsOnTheWay(e.samples, m); }
    PercentileBounds(e.samples, 0.5, 0.9);
    PercentileBounds(e.samples, 0.9, 0.9);
    var lo, hi :| lo in e.samples && hi in e.samples && lo <= e.p50.value <= hi;
    var lo', hi' :| lo' in e.samples && hi' in e.samples && lo' <= e.p90.value <= hi';
    assert lo in e.samples && hi' in e.samples && lo <= e.p50.value && e.p90.value <= hi';
  }

  // ---------------------------------------------------------------- what is accepted

  /** A record that may be taken: a legitimate catch of a known mutation, with a duration, its source and
      description as inventoried, and a full commit that its file and all other records share. */
  predicate Legitimate(m: Entries, reported: Option<string>, candidate: Option<string>, r: Record) {
    && r.caseId in m && r.source == m[r.caseId].source && r.description == m[r.caseId].description
    && r.caught && (r.pathway == Some(PURE) || r.pathway == Some(DB))
    && r.duration.Some? && r.duration.value >= 0.0
    && IsCommit(r.candidate) && (reported.Some? ==> reported == Some(r.candidate)) && candidate == Some(r.candidate)
  }

  /** Every record may be taken, and no case comes twice or was seen before. */
  predicate AllLegitimate(m: Entries, seen: set<int>, reported: Option<string>, candidate: Option<string>,
                          records: seq<Record>)
  {
    && (forall i | 0 <= i < |records| ::
          Legitimate(m, reported, candidate, records[i]) && records[i].caseId !in seen)
    && (forall i, j | 0 <= i < j < |records| :: records[i].caseId != records[j].caseId)
  }

  /** The candidate in force: the one already there, or else the first record's. */
  function Lead(candidate: Option<string>, records: seq<Record>): Option<string> {
    if candidate.Some? || records == [] then candidate else Some(records[0].candidate)
  }

  function LeadOfFiles(candidate: Option<string>, files: seq<TimingFile>): Option<string>
    decreases |files|
  {
    if files == [] then candidate else LeadOfFiles(Lead(candidate, files[0].records), files[1..])
  }

  /** Same mutations, with the same source and description. */
  predicate SameIdentity(m: Entries, m': Entries) {
    m.Keys == m'.Keys && forall id | id in m :: m[id].source == m'[id].source && m[id].description == m'[id].description
  }

  lemma SameLegitimate(m: Entries, m': Entries, seen: set<int>, reported: Option<string>, candidate: Option<string>,
                       records: seq<Record>)
    requires SameIdentity(m, m')
    ensures AllLegitimate(m, seen, reported, candidate, records) <==>
            AllLegitimate(m', seen, reported, candidate, records)
  {
    forall r: Record ensures Legitimate(m, reported, candidate, r) <==> Legitimate(m', reported, candidate, r) { }
  }

  lemma LegitimateCons(m: Entries, seen: set<int>, reported: Option<string>, candidate: Option<string>,
                       records: seq<Record>)
    requires records != []
    ensures AllLegitimate(m, seen, reported, candidate, records) <==>
            && Legitimate(m, reported, candidate, records[0]) && records[0].caseId !in seen
            && AllLegitimate(m, seen + {records[0].caseId}, reported, candidate, records[1..])
  {
    var tail := records[1..];
    assert forall i | 0 <= i < |tail| :: tail[i] == records[i + 1];
    if Legitimate(m, reported, candidate, records[0]) && records[0].caseId !in seen
       && AllLegitimate(m, seen + {records[0].caseId}, reported, candidate, tail) {
      forall i | 0 <= i < |records|
        ensures Legitimate(m, reported, candidate, records[i]) && records[i].caseId !in seen
      {
        if i > 0 { assert records[i] == tail[i - 1]; }
      }
      forall i, j | 0 <= i < j < |records| ensures records[i].caseId != records[j].caseId {
        assert records[j] == tail[j - 1];
        if i > 0 { assert records[i] == tail[i - 1]; }
      }
    }
  }

  lemma AcceptableIff(st: State, seen: set<int>, reported: Option<string>, r: Record, rest: seq<Record>)
    ensures Acceptable(st, seen, reported, r) <==>
            Legitimate(st.entries, reported, Lead(st.candidate, [r] + rest), r) && r.caseId !in seen
  {
  }

  /** The records of a file are taken exactly when all of them may be. */
  lemma {:induction false} RecordsIff(st: State, seen: set<int>, reported: Option<string>, records: seq<Record>,
                                      commit: Option<string>)
    ensures TakeRecords(st, seen, reported, records, commit).Some? <==>
            AllLegitimate(st.entries, seen, reported, Lead(st.candidate, records), records)
    ensures TakeRecords(st, seen, reported, records, commit).Some? ==>
              var st' := TakeRecords(st, seen, reported, records, commit).value;
              st'.candidate == Lead(st.candidate, records) && SameIdentity(st.entries, st'.entries)
    decreases |records|
  {
    if records != [] {
      var r, lead := records[0], Lead(st.candidate, records);
      assert records == [r] + records[1..];
      AcceptableIff(st, seen, reported, r, records[1..]);
      LegitimateCons(st.entries, seen, reported, lead, records);
      if Acceptable(st, seen, reported, r) {
        var next := TakeRecord(st, r, commit);
        RecordsIff(next, seen + {r.caseId}, reported, records[1..], commit);
        assert Lead(next.candidate, records[1..]) == lead;
        SameLegitimate(st.entries, next.entries, seen + {r.caseId}, reported, lead, records[1..]);
      }
    }
  }

  /** A file may be taken: its records may, and when asked they cover every mutation. */
  predicate FileTaken(m: Entries, f: TimingFile, candidate: Option<string>, complete: bool) {
    AllLegitimate(m, {}, f.candidate, candidate, f.records) && (complete ==> Ids(f.records) == m.Keys)
  }

  predicate AllTaken(m: Entries, paths: set<string>, files: seq<TimingFile>, candidate: Option<string>,
                     complete: bool)
  {
    && (forall i | 0 <= i < |files| :: files[i].path !in paths && FileTaken(m, files[i], candidate, complete))
    && (forall i, j | 0 <= i < j < |files| :: files[i].path != files[j].path)
  }

  lemma TakenCons(m: Entries, paths: set<string>, files: seq<TimingFile>, candidate: Option<string>, complete: bool)
    requires files != []
    ensures AllTaken(m, paths, files, candidate, complete) <==>
            && files[0].path !in paths && FileTaken(m, files[0], candidate, complete)
            && AllTaken(m, paths + {files[0].path}, files[1..], candidate, complete)
  {
    var tail := files[1..];
    assert forall i | 0 <= i < |tail| :: tail[i] == files[i + 1];
    if files[0].path !in paths && FileTaken(m, files[0], candidate, complete)
       && AllTaken(m, paths + {files[0].path}, tail, candidate, complete) {
      forall i | 0 <= i < |files| ensures files[i].path !in paths && FileTaken(m, files[i], candidate, complete) {
        if i > 0 { assert files[i] == tail[i - 1]; }
      }
      forall i, j | 0 <= i < j < |files| ensures files[i].path != files[j].path {
        assert files[j] == tail[j - 1];
        if i > 0 { assert files[i] == tail[i - 1]; }
      }
    }
  }

  lemma SameTaken(m: Entries, m': Entries, paths: set<string>, files: seq<TimingFile>, candidate: Option<string>,
                  complete: bool)
    requires SameIdentity(m, m')
    ensures AllTaken(m, paths, files, candidate, complete) <==> AllTaken(m', paths, files, candidate, complete)
  {
    forall f: TimingFile ensures FileTaken(m, f, candidate, complete) <==> FileTaken(m', f, candidate, complete) {
      SameLegitimate(m, m', {}, f.candidate, candidate, f.records);
    }
  }

  lemma {:induction false} LeadStays(candidate: Option<string>, files: seq<TimingFile>)
    requires candidate.Some?
    ensures LeadOfFiles(candidate, files) == candidate
  {
    if files != [] { LeadStays(candidate, files[1..]); }
  }

  /** One file: whether its records are legitimate does not depend on which later file would lead. */
  lemma HeadLead(m: Entries, candidate: Option<string>, files: seq<TimingFile>)
    requires files != []
    ensures var f := files[0];
            AllLegitimate(m, {}, f.candidate, LeadOfFiles(candidate, files), f.records) <==>
            AllLegitimate(m, {}, f.candidate, Lead(candidate, f.records), f.records)
  {
    if Lead(candidate, files[0].records).Some? { LeadStays(Lead(candidate, files[0].records), files[1..]); }
  }

  lemma {:induction false} FilesIff(st: State, paths: set<string>, files: seq<TimingFile>, commit: Option<string>,
                                    complete: bool)
    ensures TakeFiles(st, paths, files, commit, complete).Some? <==>
            AllTaken(st.entries, paths, files, LeadOfFiles(st.candidate, files), complete)
    ensures TakeFiles(st, paths, files, commit, complete).Some? ==>
              TakeFiles(st, paths, files, commit, complete).value.candidate == LeadOfFiles(st.candidate, files)
    decreases |files|
  {
    if files != [] {
      var f, lead := files[0], LeadOfFiles(st.candidate, files);
      RecordsIff(st, {}, f.candidate, f.records, commit);
      HeadLead(st.entries, st.candidate, files);
      TakenCons(st.entries, paths, files, lead, complete);
      var next := TakeFile(st, f, commit, complete);
      assert next.Some? <==> FileTaken(st.entries, f, lead, complete);
      if next.Some? {
        FilesIff(next.value, paths + {f.path}, files[1..], commit, complete);
        SameTaken(st.entries, next.value.entries, paths + {f.path}, files[1..], lead, complete);
      }
    }
  }

  /** An ingestion is accepted exactly when no path comes twice, every record of every file is a legitimate catch
      at the one candidate all share, no file names a case twice, complete files cover every mutation when that
      is asked, and the requested commit is that candidate. */
  lemma IngestsIff(m: Entries, files: seq<TimingFile>, commit: Option<string>, complete: bool)
    ensures Ingested(m, files, commit, complete).Some? <==>
            var candidate := LeadOfFiles(None, files);
            && AllTaken(m, {}, files, candidate, complete)
            && (commit.Some? && candidate.Some? ==> commit == candidate)
  {
    FilesIff(State(m, None), {}, files, commit, complete);
  }
}
