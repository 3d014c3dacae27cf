/** Create-intent markers on disk: written before a pod exists, bound once it has an id, completed at the end. */
module Intents {
  import opened Common
  import opened Sorting

  datatype Status = Requested | Bound | Completed

  datatype Intent = Intent(requestId: string, podId: Option<string>, purpose: string, status: Status,
                           createdAt: int, boundAt: Option<int>, completedAt: Option<int>)

  /** What a file holds: a half-written text, bytes that are no UTF-8, JSON that is no object, some other JSON
      object, or an intent marker. */
  datatype Content = Torn | NotText | NotObject | OtherKind | Marker(intent: Intent)

  /** `<stem>.json` and the temporary `<stem>.json.tmp` beside it; only the former is listed. */
  datatype FileName = Json(stem: string) | JsonTmp(stem: string)

  type Disk = map<FileName, Content>

  predicate SafeChar(c: char) {
    'a' <= c <= 'z' || 'A' <= c <= 'Z' || '0' <= c <= '9' || c == '-' || c == '_'
  }

  function Sanitise(id: string): (r: string)
    ensures |r| == |id|
  {
    seq(|id|, i requires 0 <= i < |id| => if SafeChar(id[i]) then id[i] else '_')
  }

  /** The markers a listing of the directory sees. */
  function View(d: Disk): map<string, Intent> {
    map n | n in d && n.Json? && d[n].Marker? :: n.stem := d[n].intent
  }

  /** A listed file on which reading the directory raises: only torn text and other objects are passed over. */
  predicate Blocks(n: FileName, c: Content) {
    n.Json? && (c.NotText? || c.NotObject?)
  }

  predicate Blocked(d: Disk) {
    exists n | n in d :: Blocks(n, d[n])
  }

  /** The rename that ends a marker's replacement. */
  function Rename(d: Disk, stem: string, record: Intent): Disk {
    (d - {JsonTmp(stem)})[Json(stem) := Marker(record)]
  }

  lemma ViewOfRename(d: Disk, stem: string, record: Intent)
    ensures View(Rename(d, stem, record)) == View(d)[stem := record]
  {
  }

  lemma ViewOfStage(d: Disk, stem: string, content: Content)
    ensures View(d[JsonTmp(stem) := content]) == View(d)
  {
  }

  // ---------------------------------------------------------------- what each operation does to the markers

  datatype Op =
    | Write(requestId: string, purpose: string, now: int)
    | Bind(requestId: string, podId: string, now: int)
    | Complete(requestId: string, now: int)

  datatype Refusal = EmptyId | EmptyPod | NoMarker | AlreadyCompleted

  function NewIntent(requestId: string, purpose: string, now: int): Intent {
    Intent(requestId, None, purpose, Requested, now, None, None)
  }

  function BindTo(i: Intent, podId: string, now: int): Intent {
    i.(podId := Some(podId), status := Bound, boundAt := Some(now))
  }

  function Finish(i: Intent, now: int): Intent {
    i.(status := Completed, completedAt := Some(now))
  }

  /** The record an operation puts at its path, or why it refuses. */
  function Outcome(v: map<string, Intent>, op: Op): Result<Intent, Refusal> {
    var stem := Sanitise(op.requestId);
    match op
    case Write(id, purpose, now) =>
      if stem == "" then Err(EmptyId) else Ok(NewIntent(id, purpose, now))
    case Bind(_, podId, now) =>
      if podId == "" then Err(EmptyPod)
      else if stem == "" then Err(EmptyId)
      else if stem !in v then Err(NoMarker)
      else if v[stem].status == Completed then Err(AlreadyCompleted)
      else Ok(BindTo(v[stem], podId, now))
    case Complete(_, now) =>
      if stem == "" then Err(EmptyId)
      else if stem !in v then Err(NoMarker)
      else Ok(Finish(v[stem], now))
  }

  /** Number of disk operations that replace a marker: open the temporary file, fill it, rename it. */
  const REPLACE_STEPS := 3

  /** The markers after an operation that dies once `survived` of its disk operations are done. */
  function After(v: map<string, Intent>, op: Op, survived: nat): map<string, Intent> {
    var o := Outcome(v, op);
    if o.Ok? && survived >= REPLACE_STEPS then v[Sanitise(op.requestId) := o.value] else v
  }

  // ---------------------------------------------------------------- the store

  predicate Listing(v: map<string, Intent>, out: seq<(string, Intent)>) {
    && (forall i | 0 <= i < |out| :: out[i].0 in v && out[i].1 == v[out[i].0])
    && (forall i, j | 0 <= i < j < |out| :: out[i].0 != out[j].0)
    && (forall s | s in v :: exists i | 0 <= i < |out| :: out[i].0 == s)
  }

  function NameText(n: FileName): string {
    match n
    case Json(stem) => stem + ".json"
    case JsonTmp(stem) => stem + ".json.tmp"
  }

  predicate NameLe(a: FileName, b: FileName) {
    TextLe(NameText(a), NameText(b))
  }

  predicate MarkerLe(a: (string, Intent), b: (string, Intent)) {
    NameLe(Json(a.0), Json(b.0))
  }

  predicate LeastOf(n: FileName, names: set<FileName>) {
    n in names && forall x | x in names :: NameLe(n, x)
  }

  /** A listing that is not empty has a first file name. */
  lemma {:induction false} HasLeast(names: set<FileName>) returns (n: FileName)
    requires names != {}
    ensures LeastOf(n, names)
  {
    n :| n in names;
    TextLeTotal(NameText(n), NameText(n));
    var first, rest := n, names - {n};
    assert rest + {first} == names;
    if rest != {} {
      var m := HasLeast(rest);
      n := Lesser(first, m, rest);
    } else {
      assert names == {first};
    }
  }

  lemma Lesser(n: FileName, m: FileName, rest: set<FileName>) returns (r: FileName)
    requires LeastOf(m, rest)
    ensures LeastOf(r, rest + {n})
  {
    TextLeTotal(NameText(n), NameText(n));
    TextLeTotal(NameText(n), NameText(m));
    r := if NameLe(n, m) then n else m;
    if NameLe(n, m) {
      forall x | x in rest ensures NameLe(n, x) {
        TextLeTransitive(NameText(n), NameText(m), NameText(x));
      }
    }
  }

  lemma ViewOfFile(d: Disk, n: FileName)
    requires n in d
    ensures n.Json? ==> (n.stem in View(d) <==> d[n].Marker?) && (d[n].Marker? ==> View(d)[n.stem] == d[n].intent)
  {
  }

  class IntentStore {
    var disk: Disk

    constructor ()
      ensures disk == map[]
    {
      disk := map[];
    }

    /** Replace a marker through its temporary file; a crash at any point leaves the old one or the new one. */
    method Replace(stem: string, record: Intent, survived: nat)
      modifies this
      ensures View(disk) == if survived >= REPLACE_STEPS then View(old(disk))[stem := record] else View(old(disk))
      ensures forall n | n in disk && n.Json? :: n == Json(stem) || (n in old(disk) && disk[n] == old(disk)[n])
    {
      if survived >= 1 {
        ViewOfStage(disk, stem, Torn);
        disk := disk[JsonTmp(stem) := Torn];
      }
      if survived >= 2 {
        ViewOfStage(disk, stem, Marker(record));
        disk := disk[JsonTmp(stem) := Marker(record)];
      }
      if survived >= REPLACE_STEPS {
        ViewOfRename(disk, stem, record);
        var moved := disk[JsonTmp(stem)];
        disk := (disk - {JsonTmp(stem)})[Json(stem) := moved];
      }
    }

    /** The marker at a path; `None` for a missing, torn or foreign file. */
    method Read(stem: string) returns (r: Option<Intent>)
      ensures r == if stem in View(disk) then Some(View(disk)[stem]) else None
    {
      if Json(stem) in disk && disk[Json(stem)].Marker? {
        r := Some(disk[Json(stem)].intent);
      } else {
        r := None;
      }
    }

    method WriteIntent(requestId: string, purpose: string, now: int, survived: nat) returns (r: Result<Intent, Refusal>)
      modifies this
      ensures View(disk) == After(View(old(disk)), Write(requestId, purpose, now), survived)
      ensures r == Outcome(View(old(disk)), Write(requestId, purpose, now))
    {
      var stem := Sanitise(requestId);
      if stem == "" {
        return Err(EmptyId);
      }
      var record := Intent(requestId, None, purpose, Requested, now, None, None);
      Replace(stem, record, survived);
      return Ok(record);
    }

    method BindIntent(requestId: string, podId: string, now: int, survived: nat) returns (r: Result<Intent, Refusal>)
      modifies this
      ensures View(disk) == After(View(old(disk)), Bind(requestId, podId, now), survived)
      ensures r == Outcome(View(old(disk)), Bind(requestId, podId, now))
    {
      if podId == "" {
        return Err(EmptyPod);
      }
      var stem := Sanitise(requestId);
      if stem == "" {
        return Err(EmptyId);
      }
      var found := Read(stem);
      if found.None? {
        return Err(NoMarker);
      }
      var record := found.value;
      if record.status == Completed {
        return Err(AlreadyCompleted);
      }
      record := record.(podId := Some(podId));
      record := record.(status := Bound);
      record := record.(boundAt := Some(now));
      Replace(stem, record, survived);
      return Ok(record);
    }

    method CompleteIntent(requestId: string, now: int, survived: nat) returns (r: Result<Intent, Refusal>)
      modifies this
      ensures View(disk) == After(View(old(disk)), Complete(requestId, now), survived)
      ensures r == Outcome(View(old(disk)), Complete(requestId, now))
    {
      var stem := Sanitise(requestId);
      if stem == "" {
        return Err(EmptyId);
      }
      var found := Read(stem);
      if found.None? {
        return Err(NoMarker);
      }
      var record := found.value;
      record := record.(status := Completed);
      record := record.(completedAt := Some(now));
      Replace(stem, record, survived);
      return Ok(record);
    }

    /** Every marker once, with its path, by file name; torn and foreign files are passed over, and a file that
        is no UTF-8 text or no JSON object makes the listing raise. */
    method LoadIntents() returns (r: Option<seq<(string, Intent)>>)
      ensures r.None? <==> Blocked(disk)
      ensures r.Some? ==> Listing(View(disk), r.value) && SortedBy(r.value, MarkerLe)
    {
      var out: seq<(string, Intent)> := [];
      var names := disk.Keys;
      ghost var v, done: set<FileName> := View(disk), {};
      while names != {}
        invariant names + done == disk.Keys && names !! done
        invariant forall x, y | x in done && y in names :: NameLe(x, y)
        invariant forall x | x in done :: !Blocks(x, disk[x])
        invariant ListedSoFar(v, done, out)
        decreases names
      {
        var name := FirstName(names);
        ViewOfFile(disk, name);
        names := names - {name};
        if name.Json? && (disk[name].NotText? || disk[name].NotObject?) {
          assert Blocks(name, disk[name]);
          return None;
        }
        if name.Json? && disk[name].Marker? {
          ListOneMore(v, done, out, name.stem);
          out := out + [(name.stem, disk[name].intent)];
        } else {
          PassOver(v, done, out, name);
        }
        done := done + {name};
      }
      AllListed(disk, v, done, out);
      return Some(out);
    }
  }

  method FirstName(names: set<FileName>) returns (name: FileName)
    requires names != {}
    ensures LeastOf(name, names)
  {
    ghost var least := HasLeast(names);
    name :| LeastOf(name, names);
  }

  lemma AllListed(d: Disk, v: map<string, Intent>, done: set<FileName>, out: seq<(string, Intent)>)
    requires v == View(d) && done == d.Keys && ListedSoFar(v, done, out)
    ensures Listing(v, out) && SortedBy(out, MarkerLe)
  {
    forall s | s in v ensures Json(s) in done { }
  }

  /** The markers among these files, each once, by file name. */
  ghost predicate ListedSoFar(v: map<string, Intent>, done: set<FileName>, out: seq<(string, Intent)>) {
    && (forall i | 0 <= i < |out| :: Json(out[i].0) in done && out[i].0 in v && out[i].1 == v[out[i].0])
    && (forall i, j | 0 <= i < j < |out| :: out[i].0 != out[j].0)
    && (forall s | s in v && Json(s) in done :: exists i | 0 <= i < |out| :: out[i].0 == s)
    && SortedBy(out, MarkerLe)
  }

  lemma ListOneMore(v: map<string, Intent>, done: set<FileName>, out: seq<(string, Intent)>, stem: string)
    requires ListedSoFar(v, done, out) && stem in v && Json(stem) !in done
    requires forall x | x in done :: NameLe(x, Json(stem))
    ensures ListedSoFar(v, done + {Json(stem)}, out + [(stem, v[stem])])
  {
    var more := out + [(stem, v[stem])];
    assert more[|out|].0 == stem && forall i | 0 <= i < |out| :: more[i] == out[i];
    forall s | s in v && Json(s) in done + {Json(stem)} ensures exists i | 0 <= i < |more| :: more[i].0 == s {
      if s != stem {
        var i :| 0 <= i < |out| && out[i].0 == s;
        assert more[i].0 == s;
      }
    }
  }

  lemma PassOver(v: map<string, Intent>, done: set<FileName>, out: seq<(string, Intent)>, name: FileName)
    requires ListedSoFar(v, done, out) && (name.Json? ==> name.stem !in v)
    ensures ListedSoFar(v, done + {name}, out)
  {
  }

  // ---------------------------------------------------------------- every reachable store

  predicate WellFormed(v: map<string, Intent>) {
    forall s | s in v ::
      && (v[s].status == Requested ==> v[s].podId == None)
      && (v[s].status == Bound ==> v[s].podId.Some? && v[s].podId.value != "")
  }

  /** The markers after a sequence of operations, each dying wherever it does. */
  function AfterAll(v: map<string, Intent>, ops: seq<(Op, nat)>): map<string, Intent>
    decreases |ops|
  {
    if ops == [] then v else AfterAll(After(v, ops[0].0, ops[0].1), ops[1..])
  }

  /** No run of operations and crashes ever leaves a requested marker with a pod or a bound one without. */
  lemma {:induction false} StoreStaysWellFormed(v: map<string, Intent>, ops: seq<(Op, nat)>)
    requires WellFormed(v)
    ensures WellFormed(AfterAll(v, ops))
    decreases |ops|
  {
    if ops != [] { StoreStaysWellFormed(After(v, ops[0].0, ops[0].1), ops[1..]); }
  }

  /** A completed marker stays completed, with the pod it had, until its request id is written afresh. */
  lemma {:induction false} CompletedIsFinal(v: map<string, Intent>, ops: seq<(Op, nat)>, stem: string)
    requires stem in v && v[stem].status == Completed
    requires forall i | 0 <= i < |ops| :: ops[i].0.Write? ==> Sanitise(ops[i].0.requestId) != stem
    ensures var w := AfterAll(v, ops); stem in w && w[stem].status == Completed && w[stem].podId == v[stem].podId
    decreases |ops|
  {
    if ops != [] { CompletedIsFinal(After(v, ops[0].0, ops[0].1), ops[1..], stem); }
  }

  // ---------------------------------------------------------------- one marker's life

  /** Sanitising keeps safe characters where they are and leaves only safe ones, so it changes nothing twice. */
  lemma SanitiseIsSafe(id: string)
    ensures forall i | 0 <= i < |id| :: SafeChar(Sanitise(id)[i]) && (SafeChar(id[i]) ==> Sanitise(id)[i] == id[i])
    ensures Sanitise(Sanitise(id)) == Sanitise(id)
  {
    assert forall i | 0 <= i < |id| :: SafeChar(Sanitise(id)[i]);
  }

  /** Exactly when an operation goes through, and the reason given when it does not. */
  lemma RefusesIff(v: map<string, Intent>, op: Op)
    ensures var o, stem := Outcome(v, op), Sanitise(op.requestId);
            var noPod, noId := op.Bind? && op.podId == "", op.requestId == "";
            && (o == Err(EmptyPod) <==> noPod)
            && (o == Err(EmptyId) <==> !noPod && noId)
            && (o == Err(NoMarker) <==> !noPod && !noId && !op.Write? && stem !in v)
            && (o == Err(AlreadyCompleted) <==> !noPod && !noId && op.Bind? && stem in v && v[stem].status == Completed)
  {
    assert Sanitise(op.requestId) == "" <==> op.requestId == "";
  }

  /** Written, bound and completed in turn, a marker carries its request, its pod and all three times; no other
      marker changes. */
  lemma FullLife(v: map<string, Intent>, id: string, purpose: string, pod: string, t0: int, t1: int, t2: int)
    requires id != "" && pod != ""
    ensures AfterAll(v, [(Write(id, purpose, t0), REPLACE_STEPS), (Bind(id, pod, t1), REPLACE_STEPS),
                         (Complete(id, t2), REPLACE_STEPS)])
            == v[Sanitise(id) := Intent(id, Some(pod), purpose, Completed, t0, Some(t1), Some(t2))]
  {
    var stem, n := Sanitise(id), REPLACE_STEPS;
    assert stem != "";
    var written := After(v, Write(id, purpose, t0), n);
    var bound := After(written, Bind(id, pod, t1), n);
    var ops := [(Write(id, purpose, t0), n), (Bind(id, pod, t1), n), (Complete(id, t2), n)];
    assert AfterAll(v, ops) == AfterAll(written, ops[1..]);
    assert AfterAll(written, ops[1..]) == AfterAll(bound, ops[1..][1..]);
    assert ops[1..][1..] == [(Complete(id, t2), n)];
    assert AfterAll(bound, [(Complete(id, t2), n)]) == After(bound, Complete(id, t2), n);
  }
}
