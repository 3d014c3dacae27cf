/** Paid runs as a state machine: any number of runs, in any interleaving, each of which may stop for good
    after any step.

    A killed run simply takes no further step, so a statement about every reachable state is a statement
    about a death at every point.  The writing of a temporary file is a step of its own (`Stage`) that may
    leave anything in it; only the rename makes a marker.

    All runs share one file that names the latest request (`current`).  A run records its id there after it
    wrote its marker, and at its end it completes the marker that the file names by then.  They also share the
    files through which a run learns which pod to tear down, so however far it got itself, a run may tear down,
    and write the receipt of, any pod that some run bound (`torn`). */
module PodRuns {
  import opened Common
  import opened Intents

  /** How far starting up got. */
  datatype Progress =
    | Wrote                     // the marker
    | Noted                     // its id in the shared file
    | Created(pod: string)
    | BoundTo(pod: string)

  /** How far winding down got; a run that winds down starts up no further. */
  datatype End =
    | Running
    | Down(verified: bool)
    | Receipted(verified: bool)
    | Finished(receipted: bool) // completed a marker after a verified teardown

  datatype Phase = Phase(progress: Progress, end: End)

  function Going(p: Progress): Phase {
    Phase(p, Running)
  }

  datatype Run = Run(requestId: string, phase: Phase)

  datatype World = World(
    live: set<string>,                  // pods the provider bills
    used: set<string>,                  // every pod id the provider ever issued
    disk: Disk,                         // the intent directory
    receipts: map<string, bool>,        // pod id -> receipt verified the teardown
    active: Option<string>,             // the pod the active env claims
    current: Option<string>,            // the request id in the shared file
    runs: map<string, Run>,             // by marker stem
    torn: map<string, string>,          // the pod each run tore down
    notes: seq<string>,                 // history: the runs that recorded their id, in order
    completions: map<string, string>)   // history: whose marker each finished run completed

  datatype Step =
    | Stage(stem: string, content: Content)
    | WriteMarker(requestId: string, purpose: string, now: int)
    | NoteId(stem: string)
    | CreatePod(stem: string, newPod: string)
    | BindMarker(stem: string, now: int)
    | Teardown(stem: string, target: string, verified: bool)
    | WriteReceipt(stem: string)
    | CompleteMarker(stem: string, now: int)
    | ProviderDrops(pod: string)
    | ProviderRevives(pod: string)
    | ForeignPod(newPod: string)
    | SetActive(claim: Option<string>)

  const INITIAL := World({}, {}, map[], map[], None, None, map[], map[], [], map[])

  predicate MayComplete(p: Phase) {
    (p.end.Down? || p.end.Receipted?) && p.end.verified
  }

  /** Request ids are fresh after sanitising, provider ids are fresh and non-empty.  Binding refuses a
      completed marker.  A run completes a marker only after a verified teardown; the receipt may have been
      refused before that. */
  predicate Enabled(w: World, s: Step) {
    match s
    case Stage(_, _) => true
    case WriteMarker(id, _, _) => Sanitise(id) != "" && Sanitise(id) !in w.runs
    case NoteId(stem) => stem in w.runs && w.runs[stem].phase == Going(Wrote)
    case CreatePod(stem, pod) => stem in w.runs && w.runs[stem].phase == Going(Noted) && pod != "" && pod !in w.used
    case BindMarker(stem, _) =>
      && stem in w.runs && w.runs[stem].phase.progress.Created? && w.runs[stem].phase.end.Running?
      && stem in View(w.disk) && View(w.disk)[stem].status != Completed
    case Teardown(stem, target, _) => stem in w.runs && w.runs[stem].phase.end.Running? && target in BoundPods(w.runs)
    case WriteReceipt(stem) => stem in w.runs && w.runs[stem].phase.end.Down? && stem in w.torn
    case CompleteMarker(stem, _) => stem in w.runs && MayComplete(w.runs[stem].phase)
    case ProviderDrops(_) => true
    case ProviderRevives(pod) => pod in w.used
    case ForeignPod(pod) => pod != "" && pod !in w.used
    case SetActive(_) => true
  }

  function Move(w: World, stem: string, phase: Phase): map<string, Run>
    requires stem in w.runs
  {
    w.runs[stem := w.runs[stem].(phase := phase)]
  }

  /** The marker the shared file names, if there is one. */
  function Target(w: World): Option<string> {
    if w.current.Some? && Sanitise(w.current.value) in View(w.disk) then Some(Sanitise(w.current.value)) else None
  }

  /** Completing the marker the shared file names; without one the attempt fails quietly. */
  function Complete(w: World, stem: string, now: int): World
    requires stem in w.runs && MayComplete(w.runs[stem].phase)
  {
    var p, t := w.runs[stem].phase, Target(w);
    var moved := w.(runs := Move(w, stem, p.(end := Finished(p.end.Receipted?))));
    if t.None? then moved else
    moved.(disk := Rename(w.disk, t.value, Finish(View(w.disk)[t.value], now)),
           completions := w.completions[stem := t.value])
  }

  function Next(w: World, s: Step): World
    requires Enabled(w, s)
  {
    match s
    case Stage(stem, content) => w.(disk := w.disk[JsonTmp(stem) := content])
    case WriteMarker(id, purpose, now) =>
      w.(disk := Rename(w.disk, Sanitise(id), NewIntent(id, purpose, now)),
         runs := w.runs[Sanitise(id) := Run(id, Going(Wrote))])
    case NoteId(stem) =>
      w.(current := Some(w.runs[stem].requestId), notes := w.notes + [stem], runs := Move(w, stem, Going(Noted)))
    case CreatePod(stem, pod) =>
      w.(live := w.live + {pod}, used := w.used + {pod}, runs := Move(w, stem, Going(Created(pod))))
    case BindMarker(stem, now) =>
      var pod := w.runs[stem].phase.progress.pod;
      w.(disk := Rename(w.disk, stem, BindTo(View(w.disk)[stem], pod, now)),
         runs := Move(w, stem, Going(BoundTo(pod))))
    case Teardown(stem, target, verified) =>
      w.(live := if verified then w.live - {target} else w.live, torn := w.torn[stem := target],
         runs := Move(w, stem, w.runs[stem].phase.(end := Down(verified))))
    case WriteReceipt(stem) =>
      var p := w.runs[stem].phase;
      w.(receipts := w.receipts[w.torn[stem] := p.end.verified],
         runs := Move(w, stem, p.(end := Receipted(p.end.verified))))
    case CompleteMarker(stem, now) => Complete(w, stem, now)
    case ProviderDrops(pod) => w.(live := w.live - {pod})
    case ProviderRevives(pod) => w.(live := w.live + {pod})
    case ForeignPod(pod) => w.(live := w.live + {pod}, used := w.used + {pod})
    case SetActive(claim) => w.(active := claim)
  }

  /** The world after a sequence of steps from an empty account and an empty directory, or `None` when one
      of them could not be taken. */
  function Reached(steps: seq<Step>): Option<World> {
    if steps == [] then Some(INITIAL) else
    var before, s := Reached(steps[..|steps| - 1]), steps[|steps| - 1];
    if before.Some? && Enabled(before.value, s) then Some(Next(before.value, s)) else None
  }

  // ---------------------------------------------------------------- the invariant

  function PodOf(p: Phase): Option<string> {
    if p.progress.Wrote? || p.progress.Noted? then None else Some(p.progress.pod)
  }

  /** The run has bound its marker to its pod. */
  predicate HasBound(p: Phase) {
    p.progress.BoundTo?
  }

  predicate IsDown(p: Phase) {
    !p.end.Running?
  }

  /** What the run's own receipt says. */
  function ReceiptOf(p: Phase): Option<bool> {
    if !HasBound(p) then None else
    match p.end
    case Receipted(verified) => Some(verified)
    case Finished(receipted) => if receipted then Some(true) else None
    case _ => None
  }

  /** The pods whose ids runs left in the shared identity files. */
  function BoundPods(runs: map<string, Run>): set<string> {
    set s | s in runs && HasBound(runs[s].phase) :: runs[s].phase.progress.pod
  }

  /** The runs whose marker was completed, by whichever run. */
  function Closed(w: World): set<string> {
    w.completions.Values
  }

  predicate MarkerMatches(r: Run, closed: bool, i: Intent) {
    && i.requestId == r.requestId
    && i.podId == (if HasBound(r.phase) then PodOf(r.phase) else None)
    && i.status == (if closed then Completed else if HasBound(r.phase) then Bound else Requested)
  }

  predicate RunsMatchMarkers(runs: map<string, Run>, closed: set<string>, v: map<string, Intent>) {
    && runs.Keys == v.Keys && "" !in runs
    && forall s | s in runs :: Sanitise(runs[s].requestId) == s && MarkerMatches(runs[s], s in closed, v[s])
  }

  /** The pod of each run that has one. */
  function Pods(runs: map<string, Run>): map<string, string> {
    map s | s in runs && PodOf(runs[s].phase).Some? :: PodOf(runs[s].phase).value
  }

  predicate PodsAreOwned(pods: map<string, string>, live: set<string>, used: set<string>) {
    && (forall s | s in pods :: pods[s] in used)
    && (forall s, t | s in pods && t in pods && s != t :: pods[s] != pods[t])
    && live <= used && "" !in used
  }

  predicate ReceiptMatches(r: Run, receipts: map<string, bool>) {
    PodOf(r.phase).Some? ==>
      ReceiptOf(r.phase) == if r.phase.progress.pod in receipts then Some(receipts[r.phase.progress.pod]) else None
  }

  predicate ReceiptsMatch(runs: map<string, Run>, receipts: map<string, bool>) {
    forall s | s in runs :: ReceiptMatches(runs[s], receipts)
  }

  /** There are receipts only of pods that runs created. */
  predicate ReceiptsOwned(runs: map<string, Run>, receipts: map<string, bool>) {
    forall p | p in receipts :: p in Pods(runs).Values
  }

  /** Exactly the runs past their teardown tore down a pod, one that some run bound. */
  predicate TornMatch(runs: map<string, Run>, torn: map<string, string>) {
    && (forall s | s in torn :: s in runs && torn[s] in BoundPods(runs))
    && (forall s | s in runs :: s in torn <==> IsDown(runs[s].phase))
  }

  /** Every run that tore down a pod tore down its own. */
  predicate OwnTeardowns(w: World) {
    forall s | s in w.torn :: s in w.runs && PodOf(w.runs[s].phase) == Some(w.torn[s])
  }

  predicate Owned(w: World, pod: string) {
    pod in Pods(w.runs).Values
  }

  function Last(notes: seq<string>): string
    requires notes != []
  {
    notes[|notes| - 1]
  }

  predicate At(notes: seq<string>, i: nat, s: string) {
    i < |notes| && notes[i] == s
  }

  /** `a` recorded its id no later than `b`. */
  ghost predicate NotLater(notes: seq<string>, a: string, b: string) {
    exists i: nat, j: nat | At(notes, i, a) && At(notes, j, b) :: i <= j
  }

  /** Each run that got past writing its marker recorded its id once; the shared file holds the last one. */
  predicate NotesMatch(runs: map<string, Run>, notes: seq<string>, current: Option<string>) {
    && (forall i | 0 <= i < |notes| :: notes[i] in runs)
    && (forall i, j | 0 <= i < j < |notes| :: notes[i] != notes[j])
    && (forall s | s in runs :: s in notes <==> !runs[s].phase.progress.Wrote?)
    && current == if notes == [] then None else Some(runs[Last(notes)].requestId)
  }

  /** The run completed the marker of a run that recorded its id, and no earlier than itself if it did. */
  ghost predicate CompletesLater(runs: map<string, Run>, notes: seq<string>, completions: map<string, string>,
                                 s: string)
    requires s in completions
  {
    && completions[s] in runs && completions[s] in notes
    && (s in notes ==> NotLater(notes, s, completions[s]))
  }

  /** The finished runs are those that completed a marker. */
  ghost predicate CompletionsMatch(runs: map<string, Run>, notes: seq<string>, completions: map<string, string>) {
    && (forall s | s in completions :: s in runs && runs[s].phase.end.Finished?)
    && (forall s | s in runs && runs[s].phase.end.Finished? :: s in completions)
    && (forall s {:trigger CompletesLater(runs, notes, completions, s)} | s in completions ::
          CompletesLater(runs, notes, completions, s))
  }

  /** Markers, pods and receipts agree with how far each run got. */
  predicate Books(w: World) {
    && RunsMatchMarkers(w.runs, Closed(w), View(w.disk))
    && PodsAreOwned(Pods(w.runs), w.live, w.used)
    && ReceiptsOwned(w.runs, w.receipts)
  }

  ghost predicate Inv(w: World) {
    && Books(w)
    && TornMatch(w.runs, w.torn)
    && (OwnTeardowns(w) ==> ReceiptsMatch(w.runs, w.receipts))
    && NotesMatch(w.runs, w.notes, w.current)
    && CompletionsMatch(w.runs, w.notes, w.completions)
  }

  // ---------------------------------------------------------------- markers

  lemma PutMatches(runs: map<string, Run>, closed: set<string>, v: map<string, Intent>, stem: string, r: Run, i: Intent)
    requires RunsMatchMarkers(runs, closed, v) && Sanitise(r.requestId) == stem && stem != ""
    requires MarkerMatches(r, stem in closed, i)
    ensures RunsMatchMarkers(runs[stem := r], closed, v[stem := i])
  {
  }

  lemma PhaseOnly(runs: map<string, Run>, closed: set<string>, v: map<string, Intent>, stem: string, phase: Phase)
    requires RunsMatchMarkers(runs, closed, v) && stem in runs
    requires HasBound(phase) == HasBound(runs[stem].phase)
    requires HasBound(phase) ==> PodOf(phase) == PodOf(runs[stem].phase)
    ensures RunsMatchMarkers(runs[stem := runs[stem].(phase := phase)], closed, v)
  {
    PutMatches(runs, closed, v, stem, runs[stem].(phase := phase), v[stem]);
    assert v[stem := v[stem]] == v;
  }

  lemma CloseMatches(runs: map<string, Run>, closed: set<string>, v: map<string, Intent>, t: string, now: int)
    requires RunsMatchMarkers(runs, closed, v) && t in v
    ensures RunsMatchMarkers(runs, closed + {t}, v[t := Finish(v[t], now)])
  {
  }

  /** A pod was torn down, so some run recorded its id. */
  lemma SomeoneNoted(w: World, stem: string)
    requires TornMatch(w.runs, w.torn) && NotesMatch(w.runs, w.notes, w.current)
    requires stem in w.runs && IsDown(w.runs[stem].phase)
    ensures w.notes != [] && Last(w.notes) in w.runs
  {
    assert stem in w.torn && w.torn[stem] in BoundPods(w.runs);
    var t :| t in w.runs && HasBound(w.runs[t].phase) && w.runs[t].phase.progress.pod == w.torn[stem];
    assert t in w.notes;
  }

  /** A run that is about to complete a marker finds one: that of the last run to record its id. */
  lemma TargetIsLast(w: World, stem: string)
    requires Inv(w) && stem in w.runs && IsDown(w.runs[stem].phase)
    ensures w.notes != [] && Last(w.notes) in w.runs && Target(w) == Some(Last(w.notes))
  {
    SomeoneNoted(w, stem);
    var last := Last(w.notes);
    assert last in w.runs.Keys && last in View(w.disk) && Sanitise(w.runs[last].requestId) == last;
  }

  lemma ClosedGrows(completions: map<string, string>, s: string, t: string)
    requires s !in completions
    ensures completions[s := t].Values == completions.Values + {t}
  {
    var c := completions[s := t];
    assert c[s] == t && forall k | k in completions :: k in c && c[k] == completions[k];
    forall x | x in completions.Values + {t} ensures x in c.Values {
      if x in completions.Values {
        var k :| k in completions && completions[k] == x;
        assert c[k] == x;
      }
    }
  }

  /** What completing does, once the shared file is resolved. */
  lemma CompleteIs(w: World, stem: string, now: int)
    requires Inv(w) && stem in w.runs && MayComplete(w.runs[stem].phase)
    ensures w.notes != [] && Last(w.notes) in View(w.disk) && stem !in w.completions
    ensures var p, last, w' := w.runs[stem].phase, Last(w.notes), Complete(w, stem, now);
            && w'.disk == Rename(w.disk, last, Finish(View(w.disk)[last], now))
            && w'.completions == w.completions[stem := last]
            && w'.runs == Move(w, stem, p.(end := Finished(p.end.Receipted?)))
            && w'.notes == w.notes && w'.current == w.current && w'.receipts == w.receipts && w'.torn == w.torn
  {
    TargetIsLast(w, stem);
    NotYetFinished(w.runs, w.notes, w.completions, stem);
    CompleteOn(w, stem, now, Last(w.notes));
  }

  lemma NotYetFinished(runs: map<string, Run>, notes: seq<string>, completions: map<string, string>, stem: string)
    requires CompletionsMatch(runs, notes, completions) && stem in runs && !runs[stem].phase.end.Finished?
    ensures stem !in completions
  {
  }

  lemma CompleteOn(w: World, stem: string, now: int, last: string)
    requires stem in w.runs && MayComplete(w.runs[stem].phase) && Target(w) == Some(last)
    ensures last in View(w.disk)
    ensures var p, w' := w.runs[stem].phase, Complete(w, stem, now);
            && w'.disk == Rename(w.disk, last, Finish(View(w.disk)[last], now))
            && w'.completions == w.completions[stem := last]
            && w'.runs == Move(w, stem, p.(end := Finished(p.end.Receipted?)))
            && w'.notes == w.notes && w'.current == w.current && w'.receipts == w.receipts && w'.torn == w.torn
  {
  }

  lemma CompleteKeepsMarkers(w: World, stem: string, now: int)
    requires Inv(w) && stem in w.runs && MayComplete(w.runs[stem].phase)
    ensures var w' := Complete(w, stem, now); RunsMatchMarkers(w'.runs, Closed(w'), View(w'.disk))
  {
    TargetIsLast(w, stem);
    NotYetFinished(w.runs, w.notes, w.completions, stem);
    CompleteOnKeepsMarkers(w, stem, now, Last(w.notes));
  }

  lemma CompleteOnKeepsMarkers(w: World, stem: string, now: int, last: string)
    requires RunsMatchMarkers(w.runs, Closed(w), View(w.disk)) && Target(w) == Some(last)
    requires stem in w.runs && MayComplete(w.runs[stem].phase) && stem !in w.completions
    ensures var w' := Complete(w, stem, now); RunsMatchMarkers(w'.runs, Closed(w'), View(w'.disk))
  {
    CompleteOn(w, stem, now, last);
    var v, p := View(w.disk), w.runs[stem].phase;
    ClosedGrows(w.completions, stem, last);
    ViewOfRename(w.disk, last, Finish(v[last], now));
    MoveAndClose(w.runs, Closed(w), v, stem, p.(end := Finished(p.end.Receipted?)), last, now);
  }

  lemma MoveAndClose(runs: map<string, Run>, closed: set<string>, v: map<string, Intent>,
                     stem: string, phase: Phase, last: string, now: int)
    requires RunsMatchMarkers(runs, closed, v) && stem in runs && last in v
    requires HasBound(phase) == HasBound(runs[stem].phase) && PodOf(phase) == PodOf(runs[stem].phase)
    ensures RunsMatchMarkers(runs[stem := runs[stem].(phase := phase)], closed
                             + {last}, v[last := Finish(v[last], now)])
  {
    PhaseOnly(runs, closed, v, stem, phase);
    CloseMatches(runs[stem := runs[stem].(phase := phase)], closed, v, last, now);
  }

  lemma NewIsOpen(w: World, stem: string)
    requires Inv(w) && stem !in w.runs
    ensures stem !in Closed(w)
  {
    if stem in Closed(w) { ClosedAreRuns(w, stem); }
  }

  lemma ClosedAreRuns(w: World, stem: string)
    requires CompletionsMatch(w.runs, w.notes, w.completions) && stem in Closed(w)
    ensures stem in w.runs
  {
    var s := CompleterOf(w.completions, stem);
    assert CompletesLater(w.runs, w.notes, w.completions, s);
  }

  lemma WriteKeepsMarkers(w: World, id: string, purpose: string, now: int)
    requires RunsMatchMarkers(w.runs, Closed(w), View(w.disk)) && Sanitise(id) !in Closed(w)
    requires Enabled(w, WriteMarker(id, purpose, now))
    ensures var w' := Next(w, WriteMarker(id, purpose, now)); RunsMatchMarkers(w'.runs, Closed(w'), View(w'.disk))
  {
    var stem := Sanitise(id);
    ViewOfRename(w.disk, stem, NewIntent(id, purpose, now));
    PutMatches(w.runs, Closed(w), View(w.disk), stem, Run(id, Going(Wrote)), NewIntent(id, purpose, now));
  }

  lemma BindKeepsMarkers(w: World, stem: string, now: int)
    requires RunsMatchMarkers(w.runs, Closed(w), View(w.disk)) && Enabled(w, BindMarker(stem, now))
    ensures var w' := Next(w, BindMarker(stem, now)); RunsMatchMarkers(w'.runs, Closed(w'), View(w'.disk))
  {
    var v := View(w.disk);
    assert MarkerMatches(w.runs[stem], stem in Closed(w), v[stem]);
    var i := BindTo(v[stem], w.runs[stem].phase.progress.pod, now);
    ViewOfRename(w.disk, stem, i);
    PutMatches(w.runs, Closed(w), v, stem, w.runs[stem].(phase := Going(BoundTo(w.runs[stem].phase.progress.pod))), i);
  }

  /** Steps that move one run on and leave the directory alone. */
  predicate MovesOnly(s: Step) {
    s.NoteId? || s.CreatePod? || s.Teardown? || s.WriteReceipt?
  }

  /** Steps that touch no run at all. */
  predicate Outside(s: Step) {
    s.Stage? || s.ProviderDrops? || s.ProviderRevives? || s.ForeignPod? || s.SetActive?
  }

  lemma MovesOnlyIs(w: World, s: Step)
    requires Enabled(w, s) && MovesOnly(s)
    ensures s.stem in w.runs && s.stem in Next(w, s).runs
    ensures var w', p, p' := Next(w, s), w.runs[s.stem].phase, Next(w, s).runs[s.stem].phase;
            && w'.runs == Move(w, s.stem, p') && w'.disk == w.disk && w'.completions == w.completions
            && HasBound(p') == HasBound(p) && (HasBound(p') ==> PodOf(p') == PodOf(p))
            && !p.end.Finished? && !p'.end.Finished? && (s.NoteId? ==> p.progress.Wrote?)
            && (!s.NoteId? ==> p'.progress.Wrote? == p.progress.Wrote?)
            && (!s.NoteId? ==> w'.notes == w.notes && w'.current == w.current)
  {
  }

  lemma OutsideIs(w: World, s: Step)
    requires Enabled(w, s) && Outside(s)
    ensures var w' := Next(w, s);
            && w'.runs == w.runs && w'.notes == w.notes && w'.current == w.current && w'.completions == w.completions
            && View(w'.disk) == View(w.disk)
  {
    if s.Stage? { ViewOfStage(w.disk, s.stem, s.content); }
  }

  lemma MarkersStep(w: World, s: Step)
    requires Inv(w) && Enabled(w, s)
    ensures RunsMatchMarkers(Next(w, s).runs, Closed(Next(w, s)), View(Next(w, s).disk))
  {
    if MovesOnly(s) {
      MovesOnlyIs(w, s);
      PhaseOnly(w.runs, Closed(w), View(w.disk), s.stem, Next(w, s).runs[s.stem].phase);
    } else if Outside(s) {
      OutsideIs(w, s);
    } else if s.WriteMarker? {
      NewIsOpen(w, Sanitise(s.requestId));
      WriteKeepsMarkers(w, s.requestId, s.purpose, s.now);
    } else if s.BindMarker? {
      BindKeepsMarkers(w, s.stem, s.now);
    } else {
      CompleteKeepsMarkers(w, s.stem, s.now);
    }
  }

  /** The store operation a marker step performs. */
  function OpOf(w: World, s: Step): Option<Op>
    requires Enabled(w, s)
  {
    match s
    case WriteMarker(id, purpose, now) => Some(Op.Write(id, purpose, now))
    case BindMarker(stem, now) => Some(Op.Bind(w.runs[stem].requestId, w.runs[stem].phase.progress.pod, now))
    case CompleteMarker(_, now) => if w.current.Some? then Some(Op.Complete(w.current.value, now)) else None
    case _ => None
  }

  /** The step changes the markers as its operation on the intent store does, or not at all. */
  predicate ActsOnStore(w: World, s: Step)
    requires Enabled(w, s)
  {
    var op, v, v' := OpOf(w, s), View(w.disk), View(Next(w, s).disk);
    v' == if op.Some? then Intents.After(v, op.value, REPLACE_STEPS) else v
  }

  /** Every step of every run is an operation of the store, or leaves the markers alone. */
  lemma StepsAreStoreOperations(w: World, s: Step)
    requires Inv(w) && Enabled(w, s)
    ensures ActsOnStore(w, s)
  {
    if MovesOnly(s) || Outside(s) {
      LeavesMarkers(w, s);
    } else if s.WriteMarker? {
      WriteActsOnStore(w, s);
    } else if s.BindMarker? {
      BindActsOnStore(w, s);
    } else {
      CompleteActsOnStore(w, s);
    }
  }

  lemma LeavesMarkers(w: World, s: Step)
    requires Enabled(w, s) && (MovesOnly(s) || Outside(s))
    ensures ActsOnStore(w, s)
  {
    if MovesOnly(s) { MovesOnlyIs(w, s); } else { OutsideIs(w, s); }
  }

  lemma WriteActsOnStore(w: World, s: Step)
    requires Enabled(w, s) && s.WriteMarker?
    ensures ActsOnStore(w, s)
  {
    ViewOfRename(w.disk, Sanitise(s.requestId), NewIntent(s.requestId, s.purpose, s.now));
  }

  lemma NamesItsPod(w: World, stem: string)
    requires Books(w) && stem in w.runs && w.runs[stem].phase.progress.Created?
    ensures w.runs[stem].phase.progress.pod != "" && stem != "" && Sanitise(w.runs[stem].requestId) == stem
  {
    assert stem in Pods(w.runs) && Pods(w.runs)[stem] in w.used;
  }

  lemma StoreBinds(v: map<string, Intent>, id: string, stem: string, pod: string, now: int)
    requires stem == Sanitise(id) != "" && stem in v && v[stem].status != Completed && pod != ""
    ensures Intents.After(v, Op.Bind(id, pod, now), REPLACE_STEPS) == v[stem := BindTo(v[stem], pod, now)]
  {
  }

  lemma StoreCompletes(v: map<string, Intent>, id: string, stem: string, now: int)
    requires stem == Sanitise(id) != "" && stem in v
    ensures Intents.After(v, Op.Complete(id, now), REPLACE_STEPS) == v[stem := Finish(v[stem], now)]
  {
  }

  lemma BindActsOnStore(w: World, s: Step)
    requires Books(w) && Enabled(w, s) && s.BindMarker?
    ensures ActsOnStore(w, s)
  {
    var v, r := View(w.disk), w.runs[s.stem];
    NamesItsPod(w, s.stem);
    ViewOfRename(w.disk, s.stem, BindTo(v[s.stem], r.phase.progress.pod, s.now));
    StoreBinds(v, r.requestId, s.stem, r.phase.progress.pod, s.now);
  }

  lemma CurrentNamesLast(w: World)
    requires Inv(w) && w.notes != []
    ensures w.current.Some? && Last(w.notes) in w.runs && Sanitise(w.current.value) == Last(w.notes) != ""
  {
    assert Last(w.notes) in w.runs;
  }

  lemma CompleteActsOnStore(w: World, s: Step)
    requires Inv(w) && Enabled(w, s) && s.CompleteMarker?
    ensures ActsOnStore(w, s)
  {
    CompleteIs(w, s.stem, s.now);
    CurrentNamesLast(w);
    ViewOfRename(w.disk, Last(w.notes), Finish(View(w.disk)[Last(w.notes)], s.now));
    StoreCompletes(View(w.disk), w.current.value, Last(w.notes), s.now);
  }

  // ---------------------------------------------------------------- pods and receipts

  /** Only creating a pod changes who owns what. */
  lemma PodsAfter(w: World, s: Step)
    requires Enabled(w, s)
    ensures Pods(Next(w, s).runs) == if s.CreatePod? then Pods(w.runs)[s.stem := s.newPod] else Pods(w.runs)
  {
    if s.NoteId? || s.BindMarker? || s.Teardown? || s.WriteReceipt? || s.CompleteMarker? {
      SamePod(w, s.stem, Next(w, s).runs[s.stem].phase);
    }
  }

  lemma SamePod(w: World, stem: string, phase: Phase)
    requires stem in w.runs && PodOf(phase) == PodOf(w.runs[stem].phase)
    ensures Pods(Move(w, stem, phase)) == Pods(w.runs)
  {
  }

  /** Which ids are live and issued after a step. */
  lemma AccountAfter(w: World, s: Step)
    requires Enabled(w, s)
    ensures Next(w, s).used == if s.CreatePod? || s.ForeignPod? then w.used + {s.newPod} else w.used
    ensures Next(w, s).live <= if s.CreatePod? || s.ForeignPod? then w.live + {s.newPod}
                               else if s.ProviderRevives? then w.live + {s.pod} else w.live
  {
  }

  lemma PodsStep(w: World, s: Step)
    requires Enabled(w, s) && PodsAreOwned(Pods(w.runs), w.live, w.used)
    ensures PodsAreOwned(Pods(Next(w, s).runs), Next(w, s).live, Next(w, s).used)
  {
    PodsAfter(w, s);
    AccountAfter(w, s);
    var w' := Next(w, s);
    OwnedGrows(Pods(w.runs), w.live, w.used, Pods(w'.runs), w'.live, w'.used,
               if s.CreatePod? then Some((s.stem, s.newPod)) else None);
  }

  lemma OwnedGrows(pods: map<string, string>, live: set<string>, used: set<string>,
                   pods': map<string, string>, live': set<string>, used': set<string>, added: Option<(string, string)>)
    requires PodsAreOwned(pods, live, used)
    requires used <= used' && "" !in used' && live' <= used'
    requires pods' == if added.Some? then pods[added.value.0 := added.value.1] else pods
    requires added.Some? ==> added.value.1 in used' && added.value.1 !in used
    ensures PodsAreOwned(pods', live', used')
  {
  }

  lemma ReceiptsAfter(w: World, s: Step)
    requires Enabled(w, s)
    ensures Next(w, s).receipts ==
            if s.WriteReceipt? then w.receipts[w.torn[s.stem] := w.runs[s.stem].phase.end.verified] else w.receipts
    ensures Next(w, s).torn == if s.Teardown? then w.torn[s.stem := s.target] else w.torn
  {
  }

  /** Who is past the teardown after a step. */
  lemma DownAfter(w: World, s: Step, t: string)
    requires Enabled(w, s) && t in Next(w, s).runs
    ensures t !in w.runs ==> Next(w, s).runs[t].phase == Going(Wrote)
    ensures t in w.runs ==>
              (IsDown(Next(w, s).runs[t].phase) <==> IsDown(w.runs[t].phase) || (s.Teardown? && t == s.stem))
  {
  }

  lemma RunsGrow(w: World, s: Step)
    requires Enabled(w, s)
    ensures w.runs.Keys <= Next(w, s).runs.Keys
  {
  }

  lemma PodsGrow(w: World, s: Step)
    requires Enabled(w, s)
    ensures Pods(w.runs).Values <= Pods(Next(w, s).runs).Values
  {
    PodsAfter(w, s);
    var pods, pods' := Pods(w.runs), Pods(Next(w, s).runs);
    assert s.CreatePod? ==> s.stem !in pods;
    assert forall t | t in pods :: t in pods' && pods'[t] == pods[t];
  }

  lemma StaysBound(w: World, s: Step, t: string)
    requires Enabled(w, s) && t in w.runs && HasBound(w.runs[t].phase)
    ensures t in Next(w, s).runs && Next(w, s).runs[t].phase.progress == w.runs[t].phase.progress
  {
  }

  lemma BoundPodsGrow(w: World, s: Step)
    requires Enabled(w, s)
    ensures BoundPods(w.runs) <= BoundPods(Next(w, s).runs)
  {
    forall p | p in BoundPods(w.runs) ensures p in BoundPods(Next(w, s).runs) {
      var t :| t in w.runs && HasBound(w.runs[t].phase) && w.runs[t].phase.progress.pod == p;
      StaysBound(w, s, t);
    }
  }

  lemma BoundPodsAreOwned(runs: map<string, Run>)
    ensures BoundPods(runs) <= Pods(runs).Values
  {
    forall p | p in BoundPods(runs) ensures p in Pods(runs).Values {
      var t :| t in runs && HasBound(runs[t].phase) && runs[t].phase.progress.pod == p;
      assert t in Pods(runs) && Pods(runs)[t] == p;
    }
  }

  lemma TornStep(w: World, s: Step)
    requires Enabled(w, s) && TornMatch(w.runs, w.torn)
    ensures TornMatch(Next(w, s).runs, Next(w, s).torn)
  {
    BoundPodsGrow(w, s);
    RunsGrow(w, s);
    ReceiptsAfter(w, s);
    forall t | t in Next(w, s).runs ensures t in Next(w, s).torn <==> IsDown(Next(w, s).runs[t].phase) {
      DownAfter(w, s, t);
    }
  }

  lemma ReceiptsOwnedStep(w: World, s: Step)
    requires Enabled(w, s) && TornMatch(w.runs, w.torn) && ReceiptsOwned(w.runs, w.receipts)
    ensures ReceiptsOwned(Next(w, s).runs, Next(w, s).receipts)
  {
    PodsGrow(w, s);
    ReceiptsAfter(w, s);
    BoundPodsAreOwned(w.runs);
  }

  /** But for a receipt or a new pod, a run keeps its pod and what its own receipt says. */
  lemma KeepsReceipt(w: World, s: Step, t: string)
    requires Enabled(w, s) && t in Next(w, s).runs && !s.WriteReceipt? && (s.CreatePod? ==> t != s.stem)
    ensures t !in w.runs ==> Next(w, s).runs[t].phase.progress.Wrote?
    ensures t in w.runs ==> PodOf(Next(w, s).runs[t].phase) == PodOf(w.runs[t].phase)
                            && ReceiptOf(Next(w, s).runs[t].phase) == ReceiptOf(w.runs[t].phase)
  {
  }

  lemma ReceiptUntouched(w: World, s: Step, t: string)
    requires Enabled(w, s) && PodsAreOwned(Pods(w.runs), w.live, w.used) && ReceiptsOwned(w.runs, w.receipts)
    requires ReceiptsMatch(w.runs, w.receipts) && t in Next(w, s).runs && !s.WriteReceipt?
    ensures ReceiptMatches(Next(w, s).runs[t], w.receipts)
  {
    if s.CreatePod? && t == s.stem {
      assert s.newPod !in Pods(w.runs).Values;
    } else {
      KeepsReceipt(w, s, t);
      assert t in w.runs ==> ReceiptMatches(w.runs[t], w.receipts);
    }
  }

  lemma ReceiptWritten(w: World, stem: string, t: string)
    requires PodsAreOwned(Pods(w.runs), w.live, w.used) && ReceiptsMatch(w.runs, w.receipts)
    requires Enabled(w, WriteReceipt(stem)) && t in w.runs
    requires HasBound(w.runs[stem].phase) && w.torn[stem] == w.runs[stem].phase.progress.pod
    ensures var w' := Next(w, WriteReceipt(stem)); ReceiptMatches(w'.runs[t], w'.receipts)
  {
    var pods := Pods(w.runs);
    assert ReceiptMatches(w.runs[t], w.receipts);
    if t != stem && PodOf(w.runs[t].phase).Some? {
      assert pods[t] != pods[stem];
    }
  }

  lemma ReceiptStays(w: World, s: Step, t: string)
    requires Enabled(w, s) && PodsAreOwned(Pods(w.runs), w.live, w.used) && ReceiptsOwned(w.runs, w.receipts)
    requires ReceiptsMatch(w.runs, w.receipts) && t in Next(w, s).runs
    requires s.WriteReceipt? ==>
               HasBound(w.runs[s.stem].phase) && w.torn[s.stem] == w.runs[s.stem].phase.progress.pod
    ensures ReceiptMatches(Next(w, s).runs[t], Next(w, s).receipts)
  {
    ReceiptsAfter(w, s);
    if s.WriteReceipt? {
      ReceiptWritten(w, s.stem, t);
    } else {
      ReceiptUntouched(w, s, t);
    }
  }

  /** A run that tore down its own pod had bound it. */
  lemma OwnMeansBound(w: World, stem: string)
    requires PodsAreOwned(Pods(w.runs), w.live, w.used) && TornMatch(w.runs, w.torn)
    requires OwnTeardowns(w) && stem in w.torn
    ensures stem in w.runs && HasBound(w.runs[stem].phase) && w.torn[stem] == w.runs[stem].phase.progress.pod
  {
    var t :| t in w.runs && HasBound(w.runs[t].phase) && w.runs[t].phase.progress.pod == w.torn[stem];
    assert stem in Pods(w.runs) && t in Pods(w.runs) && Pods(w.runs)[stem] == Pods(w.runs)[t];
  }

  /** A run that tore down another's pod has done so for good. */
  lemma OwnBefore(w: World, s: Step)
    requires Enabled(w, s) && TornMatch(w.runs, w.torn) && OwnTeardowns(Next(w, s))
    ensures OwnTeardowns(w)
  {
    ReceiptsAfter(w, s);
    forall t | t in w.torn ensures t in w.runs && PodOf(w.runs[t].phase) == Some(w.torn[t]) {
      assert IsDown(w.runs[t].phase);
      KeepsPod(w, s, t);
    }
  }

  lemma KeepsPod(w: World, s: Step, t: string)
    requires Enabled(w, s) && t in w.runs && IsDown(w.runs[t].phase)
    ensures t in Next(w, s).runs && PodOf(Next(w, s).runs[t].phase) == PodOf(w.runs[t].phase)
    ensures s.Teardown? ==> t != s.stem
  {
  }

  lemma ReceiptsStep(w: World, s: Step)
    requires Enabled(w, s) && PodsAreOwned(Pods(w.runs), w.live, w.used) && ReceiptsOwned(w.runs, w.receipts)
    requires TornMatch(w.runs, w.torn)
    requires OwnTeardowns(w) ==> ReceiptsMatch(w.runs, w.receipts)
    ensures OwnTeardowns(Next(w, s)) ==> ReceiptsMatch(Next(w, s).runs, Next(w, s).receipts)
  {
    if OwnTeardowns(Next(w, s)) {
      OwnBefore(w, s);
      if s.WriteReceipt? { OwnMeansBound(w, s.stem); }
      forall t | t in Next(w, s).runs ensures ReceiptMatches(Next(w, s).runs[t], Next(w, s).receipts) {
        ReceiptStays(w, s, t);
      }
    }
  }

  // ---------------------------------------------------------------- the shared file

  lemma NotLaterGrows(notes: seq<string>, x: string, a: string, b: string)
    requires NotLater(notes, a, b)
    ensures NotLater(notes + [x], a, b)
  {
    var i: nat, j: nat :| At(notes, i, a) && At(notes, j, b) && i <= j;
    assert At(notes + [x], i, a) && At(notes + [x], j, b);
  }

  lemma NoneLaterThanLast(notes: seq<string>, a: string)
    requires a in notes
    ensures NotLater(notes, a, Last(notes))
  {
    var i :| 0 <= i < |notes| && notes[i] == a;
    assert At(notes, i, a) && At(notes, |notes| - 1, Last(notes));
  }

  lemma MoveKeepsNotes(runs: map<string, Run>, notes: seq<string>, current: Option<string>, stem: string, phase: Phase)
    requires NotesMatch(runs, notes, current) && stem in runs
    requires phase.progress.Wrote? == runs[stem].phase.progress.Wrote?
    ensures NotesMatch(runs[stem := runs[stem].(phase := phase)], notes, current)
  {
  }

  lemma NoteKeepsNotes(runs: map<string, Run>, notes: seq<string>, current: Option<string>, stem: string)
    requires NotesMatch(runs, notes, current) && stem in runs && runs[stem].phase.progress.Wrote?
    ensures NotesMatch(runs[stem := runs[stem].(phase := Going(Noted))], notes + [stem], Some(runs[stem].requestId))
  {
    assert stem !in notes;
    assert forall x :: x in notes + [stem] <==> x in notes || x == stem;
  }

  lemma WriteKeepsNotes(runs: map<string, Run>, notes: seq<string>, current: Option<string>, stem: string, id: string)
    requires NotesMatch(runs, notes, current) && stem !in runs
    ensures NotesMatch(runs[stem := Run(id, Going(Wrote))], notes, current)
  {
    assert stem !in notes;
  }

  lemma NotesStep(w: World, s: Step)
    requires Inv(w) && Enabled(w, s)
    ensures NotesMatch(Next(w, s).runs, Next(w, s).notes, Next(w, s).current)
  {
    if s.NoteId? {
      NoteKeepsNotes(w.runs, w.notes, w.current, s.stem);
    } else if MovesOnly(s) {
      MovesOnlyIs(w, s);
      MoveKeepsNotes(w.runs, w.notes, w.current, s.stem, Next(w, s).runs[s.stem].phase);
    } else if Outside(s) {
      OutsideIs(w, s);
    } else if s.WriteMarker? {
      WriteKeepsNotes(w.runs, w.notes, w.current, Sanitise(s.requestId), s.requestId);
    } else {
      if s.CompleteMarker? { CompleteIs(w, s.stem, s.now); }
      MoveKeepsNotes(w.runs, w.notes, w.current, s.stem, Next(w, s).runs[s.stem].phase);
    }
  }

  /** A step that finishes no run keeps the completions, and who recorded before whom. */
  lemma CompletionsKept(runs: map<string, Run>, notes: seq<string>, completions: map<string, string>,
                        runs': map<string, Run>, notes': seq<string>)
    requires CompletionsMatch(runs, notes, completions)
    requires forall s | s in runs :: s in runs' && runs'[s].phase.end.Finished? == runs[s].phase.end.Finished?
    requires forall s | s in runs' && s !in runs :: !runs'[s].phase.end.Finished?
    requires notes' == notes || exists x :: x !in completions && notes' == notes + [x]
    ensures CompletionsMatch(runs', notes', completions)
  {
    forall s | s in completions ensures CompletesLater(runs', notes', completions, s) {
      assert CompletesLater(runs, notes, completions, s);
      if notes' != notes {
        var x :| x !in completions && notes' == notes + [x];
        if s in notes { NotLaterGrows(notes, x, s, completions[s]); }
      }
    }
  }

  lemma CompletionAdded(runs: map<string, Run>, notes: seq<string>, completions: map<string, string>, stem: string,
                        r: Run)
    requires CompletionsMatch(runs, notes, completions) && stem in runs && r.phase.end.Finished?
    requires notes != [] && Last(notes) in runs
    ensures CompletionsMatch(runs[stem := r], notes, completions[stem := Last(notes)])
  {
    if stem in notes { NoneLaterThanLast(notes, stem); }
    var runs', completions' := runs[stem := r], completions[stem := Last(notes)];
    forall s | s in completions' ensures CompletesLater(runs', notes, completions', s) {
      if s != stem { assert CompletesLater(runs, notes, completions, s); }
    }
  }

  /** A step that is no completion finishes nobody. */
  lemma FinishesNobody(w: World, s: Step)
    requires Enabled(w, s) && !s.CompleteMarker?
    ensures forall t | t in w.runs ::
              t in Next(w, s).runs && Next(w, s).runs[t].phase.end.Finished? == w.runs[t].phase.end.Finished?
    ensures forall t | t in Next(w, s).runs && t !in w.runs :: !Next(w, s).runs[t].phase.end.Finished?
    ensures Next(w, s).notes == if s.NoteId? then w.notes + [s.stem] else w.notes
    ensures Next(w, s).completions == w.completions
  {
    if Outside(s) { OutsideIs(w, s); }
    if MovesOnly(s) { MovesOnlyIs(w, s); }
  }

  lemma CompletionsStep(w: World, s: Step)
    requires Inv(w) && Enabled(w, s)
    ensures CompletionsMatch(Next(w, s).runs, Next(w, s).notes, Next(w, s).completions)
  {
    if s.CompleteMarker? {
      CompleteIs(w, s.stem, s.now);
      TargetIsLast(w, s.stem);
      CompletionAdded(w.runs, w.notes, w.completions, s.stem, Next(w, s).runs[s.stem]);
    } else {
      FinishesNobody(w, s);
      if s.NoteId? { NotYetFinished(w.runs, w.notes, w.completions, s.stem); }
      CompletionsKept(w.runs, w.notes, w.completions, Next(w, s).runs, Next(w, s).notes);
    }
  }

  lemma {:induction false} InvHolds(steps: seq<Step>)
    ensures Reached(steps).Some? ==> Inv(Reached(steps).value)
  {
    if steps != [] && Reached(steps).Some? {
      InvHolds(steps[..|steps| - 1]);
      var w, s := Reached(steps[..|steps| - 1]).value, steps[|steps| - 1];
      InvStep(w, s);
    }
  }

  lemma InvStep(w: World, s: Step)
    requires Inv(w) && Enabled(w, s)
    ensures Inv(Next(w, s))
  {
    MarkersStep(w, s);
    PodsStep(w, s);
    TornStep(w, s);
    ReceiptsOwnedStep(w, s);
    ReceiptsStep(w, s);
    NotesStep(w, s);
    CompletionsStep(w, s);
  }

  lemma KeepsListable(w: World, s: Step)
    requires Enabled(w, s) && !Blocked(w.disk)
    ensures !Blocked(Next(w, s).disk)
  {
    forall n | n in Next(w, s).disk ensures !Blocks(n, Next(w, s).disk[n]) {
      assert n in w.disk ==> !Blocks(n, w.disk[n]);
    }
  }

  /** No run ever leaves a file on which listing the intent directory raises. */
  lemma {:induction false} AlwaysListable(steps: seq<Step>)
    ensures Reached(steps).Some? ==> !Blocked(Reached(steps).value.disk)
  {
    if steps != [] && Reached(steps).Some? {
      AlwaysListable(steps[..|steps| - 1]);
      KeepsListable(Reached(steps[..|steps| - 1]).value, steps[|steps| - 1]);
    }
  }

  // ---------------------------------------------------------------- who completes whose marker

  /** The last run to record its id, read off the steps. */
  function LastNote(steps: seq<Step>): Option<string> {
    if steps == [] then None
    else if steps[|steps| - 1].NoteId? then Some(steps[|steps| - 1].stem)
    else LastNote(steps[..|steps| - 1])
  }

  /** Step `i` records this run's id, and no step from there to `n` records another. */
  predicate LastAt(steps: seq<Step>, i: nat, n: nat, stem: string) {
    i < n <= |steps| && steps[i] == NoteId(stem) && forall k | i < k < n :: !steps[k].NoteId?
  }

  /** Between this run's record in the shared file and its completion at `j` no other run recorded its id. */
  ghost predicate Undisturbed(steps: seq<Step>, j: nat)
    requires j < |steps| && steps[j].CompleteMarker?
  {
    exists i: nat :: LastAt(steps, i, j, steps[j].stem)
  }

  /** No run's record falls between another run's record and its completion. */
  ghost predicate Orderly(steps: seq<Step>) {
    forall j: nat | j < |steps| && steps[j].CompleteMarker? :: Undisturbed(steps, j)
  }

  /** Every finished run completed its own marker. */
  predicate Own(w: World) {
    forall s | s in w.completions :: w.completions[s] == s
  }

  lemma {:induction false} LastNoteAt(steps: seq<Step>, n: nat, stem: string)
    requires n <= |steps|
    ensures LastNote(steps[..n]) == Some(stem) <==> exists i: nat :: LastAt(steps, i, n, stem)
  {
    if n > 0 {
      LastNoteAt(steps, n - 1, stem);
      assert steps[..n][..n - 1] == steps[..n - 1];
      if steps[n - 1] == NoteId(stem) {
        assert LastAt(steps, n - 1, n, stem);
      } else if !steps[n - 1].NoteId? {
        if LastNote(steps[..n]) == Some(stem) {
          var i: nat :| LastAt(steps, i, n - 1, stem);
          assert LastAt(steps, i, n, stem);
        }
        if i: nat :| LastAt(steps, i, n, stem) {
          assert LastAt(steps, i, n - 1, stem);
        }
      }
    }
  }

  lemma NotesAfter(w: World, s: Step)
    requires Enabled(w, s)
    ensures Next(w, s).notes == if s.NoteId? then w.notes + [s.stem] else w.notes
  {
  }

  lemma {:induction false} LastNoteIs(steps: seq<Step>)
    requires Reached(steps).Some?
    ensures var notes := Reached(steps).value.notes; LastNote(steps) == if notes == [] then None else Some(Last(notes))
  {
    if steps != [] {
      var front, s := steps[..|steps| - 1], steps[|steps| - 1];
      ReachedSnoc(steps, front, s);
      LastNoteIs(front);
      NotesAfter(Reached(front).value, s);
    }
  }

  lemma ReachedSnoc(steps: seq<Step>, front: seq<Step>, s: Step)
    requires Reached(steps).Some? && steps != [] && front == steps[..|steps| - 1] && s == steps[|steps| - 1]
    ensures Reached(front).Some? && Enabled(Reached(front).value, s)
            && Reached(steps) == Some(Next(Reached(front).value, s))
  {
  }

  lemma CompletionMade(front: seq<Step>, w: World, s: Step)
    requires Reached(front) == Some(w) && Enabled(w, s) && s.CompleteMarker?
    ensures s.stem in Next(w, s).completions && LastNote(front) == Some(Next(w, s).completions[s.stem])
  {
    InvHolds(front);
    CompleteIs(w, s.stem, s.now);
    LastNoteIs(front);
  }

  lemma FinishesOnce(w: World, s: Step, stem: string)
    requires CompletionsMatch(w.runs, w.notes, w.completions) && Enabled(w, s) && stem in w.completions
    ensures s.CompleteMarker? ==> s.stem != stem
  {
    assert w.runs[stem].phase.end.Finished?;
  }

  lemma NoCompletion(w: World, s: Step)
    requires Enabled(w, s) && !s.CompleteMarker?
    ensures Next(w, s).completions == w.completions
  {
  }

  lemma CompletionsAfter(w: World, s: Step)
    requires Inv(w) && Enabled(w, s)
    ensures s.CompleteMarker? ==> w.notes != []
    ensures Next(w, s).completions ==
            if s.CompleteMarker? then w.completions[s.stem := Last(w.notes)] else w.completions
  {
    if s.CompleteMarker? { CompleteIs(w, s.stem, s.now); } else { NoCompletion(w, s); }
  }

  lemma ReachedFinishesOnce(front: seq<Step>, s: Step, stem: string)
    requires Reached(front).Some? && Enabled(Reached(front).value, s) && stem in Reached(front).value.completions
    ensures s.CompleteMarker? ==> s.stem != stem
  {
    InvHolds(front);
    FinishesOnce(Reached(front).value, s, stem);
  }

  lemma ReachedCompletions(front: seq<Step>, s: Step)
    requires Reached(front).Some? && Enabled(Reached(front).value, s)
    ensures var w := Reached(front).value;
            && (s.CompleteMarker? ==> w.notes != [])
            && Next(w, s).completions ==
               if s.CompleteMarker? then w.completions[s.stem := Last(w.notes)] else w.completions
  {
    InvHolds(front);
    CompletionsAfter(Reached(front).value, s);
  }

  lemma CompletionKept(front: seq<Step>, s: Step, stem: string)
    requires Reached(front).Some? && Enabled(Reached(front).value, s) && stem in Reached(front).value.completions
    ensures var c, c' := Reached(front).value.completions, Next(Reached(front).value, s).completions;
            stem in c' && c'[stem] == c[stem]
  {
    ReachedFinishesOnce(front, s, stem);
    ReachedCompletions(front, s);
  }

  /** A completion keeps standing for the marker the shared file named when it was made. */
  lemma {:induction false} CompletionStands(steps: seq<Step>, j: nat)
    requires j < |steps| && steps[j].CompleteMarker? && Reached(steps).Some?
    ensures var w := Reached(steps).value;
            steps[j].stem in w.completions && LastNote(steps[..j]) == Some(w.completions[steps[j].stem])
  {
    var front, s := steps[..|steps| - 1], steps[|steps| - 1];
    ReachedSnoc(steps, front, s);
    if j == |front| {
      CompletionMade(front, Reached(front).value, s);
    } else {
      CompletionStands(front, j);
      assert front[..j] == steps[..j];
      CompletionKept(front, s, steps[j].stem);
    }
  }

  lemma {:induction false} CompletedBy(steps: seq<Step>, stem: string) returns (j: nat)
    requires Reached(steps).Some? && stem in Reached(steps).value.completions
    ensures j < |steps| && steps[j].CompleteMarker? && steps[j].stem == stem
  {
    var front, last := steps[..|steps| - 1], steps[|steps| - 1];
    ReachedSnoc(steps, front, last);
    ReachedCompletions(front, last);
    if last.CompleteMarker? && last.stem == stem {
      j := |front|;
    } else {
      j := CompletedBy(front, stem);
    }
  }

  /** The completion at `j` completes its own run's marker if and only if it was undisturbed. */
  lemma CompletesOwnIffUndisturbed(steps: seq<Step>, j: nat)
    requires Reached(steps).Some? && j < |steps| && steps[j].CompleteMarker?
    ensures var w := Reached(steps).value;
            steps[j].stem in w.completions && (w.completions[steps[j].stem] == steps[j].stem <==> Undisturbed(steps, j))
  {
    CompletionStands(steps, j);
    LastNoteAt(steps, j, steps[j].stem);
  }

  lemma OwnIffOrderly(steps: seq<Step>)
    requires Reached(steps).Some?
    ensures Own(Reached(steps).value) <==> Orderly(steps)
  {
    var w := Reached(steps).value;
    forall j: nat | j < |steps| && steps[j].CompleteMarker?
      ensures steps[j].stem in w.completions
              && (w.completions[steps[j].stem] == steps[j].stem <==> Undisturbed(steps, j))
    {
      CompletesOwnIffUndisturbed(steps, j);
    }
    if Orderly(steps) {
      forall s | s in w.completions ensures w.completions[s] == s {
        var j := CompletedBy(steps, s);
      }
    }
  }

  /** If every finished run's marker is completed, each completed its own: whoever completed another's left
      its own to a run that recorded earlier and did the same, and so on without end. */
  lemma {:induction false} NoCrossing(notes: seq<string>, completions: map<string, string>, i: nat)
    requires forall i, j | 0 <= i < j < |notes| :: notes[i] != notes[j]
    requires forall s | s in completions :: NotLater(notes, s, completions[s]) && s in completions.Values
    requires i < |notes| && notes[i] in completions
    ensures completions[notes[i]] == notes[i]
  {
    var m := notes[i];
    if completions[m] != m {
      var y := CompleterOf(completions, m);
      var a := RecordedBefore(notes, y, i);
      NoCrossing(notes, completions, a);
    }
  }

  lemma CompleterOf(completions: map<string, string>, m: string) returns (y: string)
    requires m in completions.Values
    ensures y in completions && completions[y] == m
  {
    y :| y in completions && completions[y] == m;
  }

  lemma RecordedBefore(notes: seq<string>, y: string, i: nat) returns (a: nat)
    requires forall i, j | 0 <= i < j < |notes| :: notes[i] != notes[j]
    requires i < |notes| && y != notes[i] && NotLater(notes, y, notes[i])
    ensures a < i && notes[a] == y
  {
    var k: nat, b: nat :| At(notes, k, y) && At(notes, b, notes[i]) && k <= b;
    assert b == i;
    a := k;
  }

  lemma AllOwn(notes: seq<string>, completions: map<string, string>)
    requires forall i, j | 0 <= i < j < |notes| :: notes[i] != notes[j]
    requires forall s | s in completions :: NotLater(notes, s, completions[s]) && s in completions.Values
    ensures forall s | s in completions :: completions[s] == s
  {
    forall s | s in completions ensures completions[s] == s {
      var i: nat, j: nat :| At(notes, i, s) && At(notes, j, completions[s]) && i <= j;
      NoCrossing(notes, completions, i);
    }
  }

  lemma OwnWhenClosed(w: World)
    requires NotesMatch(w.runs, w.notes, w.current) && CompletionsMatch(w.runs, w.notes, w.completions)
    requires forall s | s in w.completions :: s in Closed(w)
    ensures Own(w)
  {
    forall s | s in w.completions ensures NotLater(w.notes, s, w.completions[s]) {
      var t := CompleterOf(w.completions, s);
      assert CompletesLater(w.runs, w.notes, w.completions, t);
      assert CompletesLater(w.runs, w.notes, w.completions, s);
    }
    AllOwn(w.notes, w.completions);
  }

  lemma OwnMeansClosedIsFinished(w: World, s: string)
    requires Inv(w) && Own(w) && s in w.runs
    ensures s in Closed(w) <==> w.runs[s].phase.end.Finished?
  {
    if s in Closed(w) {
      var t := CompleterOf(w.completions, s);
      assert t == s;
    }
    if w.runs[s].phase.end.Finished? {
      assert s in w.completions && w.completions[s] == s;
    }
  }

  lemma StatusTells(w: World, s: string)
    requires Inv(w) && s in w.runs
    ensures s in View(w.disk) && (View(w.disk)[s].status == Completed <==> s in Closed(w))
  {
    assert s in w.runs.Keys && MarkerMatches(w.runs[s], s in Closed(w), View(w.disk)[s]);
  }

  /** In every reachable state a marker is completed exactly when its own run finished, for all runs, if and
      only if no run recorded its id between another run's record and its completion. */
  lemma MarkersTellIffOrderly(steps: seq<Step>)
    requires Reached(steps).Some?
    ensures var w := Reached(steps).value;
            Orderly(steps) <==>
            forall s | s in w.runs :: s in View(w.disk)
              && (View(w.disk)[s].status == Completed <==> w.runs[s].phase.end.Finished?)
  {
    var w := Reached(steps).value;
    InvHolds(steps);
    OwnIffOrderly(steps);
    forall s | s in w.runs ensures s in View(w.disk) && (View(w.disk)[s].status == Completed <==> s in Closed(w)) {
      StatusTells(w, s);
    }
    if Own(w) {
      forall s | s in w.runs ensures s in Closed(w) <==> w.runs[s].phase.end.Finished? {
        OwnMeansClosedIsFinished(w, s);
      }
    } else if forall s | s in w.runs :: View(w.disk)[s].status == Completed <==> w.runs[s].phase.end.Finished? {
      OwnWhenClosed(w);
    }
  }
}
