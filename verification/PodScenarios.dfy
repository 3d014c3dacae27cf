/** Runs of steps worth having by name: a clean one, one that completes without a receipt, two runs that cross
    in the shared file, and two that swap pods. */
module PodScenarios {
  import opened Common
  import opened Intents
  import opened Reconcile
  import opened PodRuns
  import opened PodReports

  lemma Take(steps: seq<Step>, s: Step)
    requires Reached(steps).Some? && Enabled(Reached(steps).value, s)
    ensures Reached(steps + [s]) == Some(Next(Reached(steps).value, s))
  {
    assert (steps + [s])[..|steps|] == steps;
  }

  /** A run up to its bind. */
  function StartSteps(id: string, pod: string, now: int): seq<Step> {
    [WriteMarker(id, "experiment", now), NoteId(Sanitise(id)), CreatePod(Sanitise(id), pod),
     BindMarker(Sanitise(id), now)]
  }

  predicate MayStart(w: World, id: string, pod: string) {
    Sanitise(id) != "" && Sanitise(id) !in w.runs && pod != "" && pod !in w.used
  }

  predicate HasStarted(w: World, id: string, pod: string, w': World) {
    && w'.runs == w.runs[Sanitise(id) := Run(id, Going(BoundTo(pod)))] && w'.live == w.live + {pod}
    && w'.used == w.used + {pod}
    && w'.receipts == w.receipts && w'.active == w.active && w'.notes == w.notes + [Sanitise(id)]
    && w'.completions == w.completions && w'.torn == w.torn
  }

  lemma WriteAndNote(steps: seq<Step>, id: string, now: int)
    requires Reached(steps).Some? && Sanitise(id) != "" && Sanitise(id) !in Reached(steps).value.runs
    ensures var w := Reached(steps).value;
            var r := Reached(steps + [WriteMarker(id, "experiment", now), NoteId(Sanitise(id))]);
            && r.Some? && r.value.runs == w.runs[Sanitise(id) := Run(id, Going(Noted))]
            && r.value.live == w.live && r.value.used == w.used && r.value.receipts == w.receipts
            && r.value.active == w.active
            && r.value.notes == w.notes + [Sanitise(id)] && r.value.completions == w.completions
            && r.value.torn == w.torn
  {
    var a, b := WriteMarker(id, "experiment", now), NoteId(Sanitise(id));
    Take(steps, a);
    Take(steps + [a], b);
    assert steps + [a, b] == steps + [a] + [b];
  }

  lemma MayBind(steps: seq<Step>, stem: string, now: int)
    requires Reached(steps).Some?
    requires var w := Reached(steps).value;
             && stem in w.runs && stem !in Closed(w)
             && w.runs[stem].phase.progress.Created? && w.runs[stem].phase.end.Running?
    ensures Enabled(Reached(steps).value, BindMarker(stem, now))
  {
    InvHolds(steps);
    StatusTells(Reached(steps).value, stem);
  }

  lemma CreateAndBind(steps: seq<Step>, stem: string, pod: string, now: int)
    requires Reached(steps).Some? && pod != "" && pod !in Reached(steps).value.used
    requires var w := Reached(steps).value; stem in w.runs && w.runs[stem].phase == Going(Noted) && stem !in Closed(w)
    ensures var w, r := Reached(steps).value, Reached(steps + [CreatePod(stem, pod), BindMarker(stem, now)]);
            && r.Some? && r.value.runs == Move(w, stem, Going(BoundTo(pod)))
            && r.value.live == w.live + {pod} && r.value.used == w.used + {pod} && r.value.receipts == w.receipts
            && r.value.active == w.active && r.value.notes == w.notes && r.value.completions == w.completions
            && r.value.torn == w.torn
  {
    var a, b := CreatePod(stem, pod), BindMarker(stem, now);
    Take(steps, a);
    MayBind(steps + [a], stem, now);
    Take(steps + [a], b);
    assert steps + [a, b] == steps + [a] + [b];
  }

  lemma StaysOpen(steps: seq<Step>, stem: string)
    requires Reached(steps).Some? && stem !in Reached(steps).value.runs
    ensures stem !in Closed(Reached(steps).value)
  {
    InvHolds(steps);
    NewIsOpen(Reached(steps).value, stem);
  }

  /** A fresh request on a fresh pod can always be started. */
  lemma Start(steps: seq<Step>, id: string, pod: string, now: int)
    requires Reached(steps).Some? && MayStart(Reached(steps).value, id, pod)
    ensures Reached(steps + StartSteps(id, pod, now)).Some?
    ensures HasStarted(Reached(steps).value, id, pod, Reached(steps + StartSteps(id, pod, now)).value)
  {
    var mid := steps + [WriteMarker(id, "experiment", now), NoteId(Sanitise(id))];
    StaysOpen(steps, Sanitise(id));
    WriteAndNote(steps, id, now);
    StartFrom(Reached(steps).value, mid, id, pod, now);
    assert steps + StartSteps(id, pod, now) == mid + [CreatePod(Sanitise(id), pod), BindMarker(Sanitise(id), now)];
  }

  lemma StartFrom(w: World, mid: seq<Step>, id: string, pod: string, now: int)
    requires MayStart(w, id, pod) && Sanitise(id) !in Closed(w) && Reached(mid).Some?
    requires var m := Reached(mid).value;
             && m.runs == w.runs[Sanitise(id) := Run(id, Going(Noted))]
             && m.live == w.live && m.used == w.used && m.receipts == w.receipts && m.active == w.active
             && m.notes == w.notes + [Sanitise(id)] && m.completions == w.completions && m.torn == w.torn
    ensures var r := Reached(mid + [CreatePod(Sanitise(id), pod), BindMarker(Sanitise(id), now)]);
            r.Some? && HasStarted(w, id, pod, r.value)
  {
    CreateAndBind(mid, Sanitise(id), pod, now);
  }

  lemma CompleteReached(steps: seq<Step>, w: World, stem: string, now: int)
    requires Reached(steps) == Some(w) && stem in w.runs && MayComplete(w.runs[stem].phase)
    ensures w.notes != [] && Target(w) == Some(Last(w.notes))
    ensures var w' := PodRuns.Complete(w, stem, now);
            && w'.completions == w.completions[stem := Last(w.notes)]
            && w'.runs == Move(w, stem, w.runs[stem].phase.(end := Finished(w.runs[stem].phase.end.Receipted?)))
  {
    InvHolds(steps);
    TargetIsLast(w, stem);
    CompleteOn(w, stem, now, Last(w.notes));
  }

  lemma Finishes(steps: seq<Step>, stem: string, now: int)
    requires Reached(steps).Some?
    requires var w := Reached(steps).value; stem in w.runs && MayComplete(w.runs[stem].phase)
    ensures var w, r := Reached(steps).value, Reached(steps + [CompleteMarker(stem, now)]);
            && r.Some? && w.notes != []
            && r.value.runs == Move(w, stem, w.runs[stem].phase.(end := Finished(w.runs[stem].phase.end.Receipted?)))
            && r.value.completions == w.completions[stem := Last(w.notes)] && r.value.live == w.live
            && r.value.receipts == w.receipts && r.value.active == w.active && r.value.used == w.used
  {
    CompleteReached(steps, Reached(steps).value, stem, now);
    Take(steps, CompleteMarker(stem, now));
  }

  // ---------------------------------------------------------------- all the way

  function CleanSteps(id: string, pod: string, now: int): seq<Step> {
    StartSteps(id, pod, now) + [Teardown(Sanitise(id), pod, true), WriteReceipt(Sanitise(id)),
                                CompleteMarker(Sanitise(id), now)]
  }

  lemma StartAlone(id: string, pod: string, now: int)
    requires id != "" && pod != ""
    ensures Reached(StartSteps(id, pod, now)).Some?
    ensures HasStarted(INITIAL, id, pod, Reached(StartSteps(id, pod, now)).value)
  {
    assert [] + StartSteps(id, pod, now) == StartSteps(id, pod, now);
    Start([], id, pod, now);
  }

  /** A run can go all the way: no live pod, a verified receipt, and its own marker completed. */
  lemma CleanRun(id: string, pod: string, now: int)
    requires id != "" && pod != ""
    ensures var r := Reached(CleanSteps(id, pod, now));
            && r.Some? && r.value.live == {}
            && r.value.runs == map[Sanitise(id) := Run(id, Phase(BoundTo(pod), Finished(true)))]
            && r.value.receipts == map[pod := true] && r.value.completions == map[Sanitise(id) := Sanitise(id)]
  {
    var stem, s0 := Sanitise(id), StartSteps(id, pod, now);
    StartAlone(id, pod, now);
    KnownPod(Reached(s0).value.runs, stem);
    Take(s0, Teardown(stem, pod, true));
    var s1 := s0 + [Teardown(stem, pod, true)];
    Take(s1, WriteReceipt(stem));
    var s2 := s1 + [WriteReceipt(stem)];
    Finishes(s2, stem, now);
    assert CleanSteps(id, pod, now) == s2 + [CompleteMarker(stem, now)];
  }

  // ---------------------------------------------------------------- completed without a receipt

  /** The receipt is refused, the marker is completed all the same, and the provider brings the pod back. */
  function ReceiptlessSteps(id: string, pod: string, now: int): seq<Step> {
    StartSteps(id, pod, now)
    + [Teardown(Sanitise(id), pod, true), CompleteMarker(Sanitise(id), now), ProviderRevives(pod)]
  }

  lemma ReceiptlessWorld(id: string, pod: string, now: int)
    requires id != "" && pod != ""
    ensures var r := Reached(ReceiptlessSteps(id, pod, now));
            && r.Some? && r.value.live == {pod}
            && r.value.runs == map[Sanitise(id) := Run(id, Phase(BoundTo(pod), Finished(false)))]
            && r.value.active == None && r.value.receipts == map[]
            && r.value.completions == map[Sanitise(id) := Sanitise(id)]
  {
    var stem, s0 := Sanitise(id), StartSteps(id, pod, now);
    StartAlone(id, pod, now);
    KnownPod(Reached(s0).value.runs, stem);
    Take(s0, Teardown(stem, pod, true));
    var s1 := s0 + [Teardown(stem, pod, true)];
    Finishes(s1, stem, now);
    var s2 := s1 + [CompleteMarker(stem, now)];
    Take(s2, ProviderRevives(pod));
    assert ReceiptlessSteps(id, pod, now) == s2 + [ProviderRevives(pod)];
  }

  /** A live pod of a run that nobody claims has a row, an orphan. */
  lemma RowFor(w: World, s: string, pods: seq<LivePod>, listing: seq<(string, Intent)>) returns (row: Row)
    requires Books(w) && Lists(pods, w.live) && Listing(View(w.disk), listing) && w.active == None
    requires s in w.runs && PodOf(w.runs[s].phase).Some? && w.runs[s].phase.progress.pod in w.live
    ensures row in ReportOf(w, pods, listing).live && row.pod.id == w.runs[s].phase.progress.pod && row.orphan
    ensures row.classification
            == ClassOf(HasBound(w.runs[s].phase), s in Closed(w), Receipt(w, w.runs[s].phase.progress.pod))
  {
    assert s in Pods(w.runs) && Pods(w.runs)[s] == w.runs[s].phase.progress.pod;
    PodIsReported(w, pods, listing, s);
    row :| row in ReportOf(w, pods, listing).live && row.pod.id == w.runs[s].phase.progress.pod;
    RowIsSoundOf(w, pods, listing, row);
    RowOfRun(w, pods, listing, row, s);
  }

  lemma OrderlyOf(steps: seq<Step>, w: World)
    requires Reached(steps) == Some(w)
    ensures Books(w) && (Own(w) <==> Orderly(steps))
  {
    InvHolds(steps);
    OwnIffOrderly(steps);
  }

  /** A pod that comes back after its run completed without a receipt is reported unknown. */
  lemma ReceiptlessIsUnknown(id: string, pod: string, now: int, w: World, pods: seq<LivePod>,
                             listing: seq<(string, Intent)>) returns (row: Row)
    requires id != "" && pod != "" && Reached(ReceiptlessSteps(id, pod, now)) == Some(w)
    requires Lists(pods, w.live) && Listing(View(w.disk), listing)
    ensures Orderly(ReceiptlessSteps(id, pod, now))
    ensures row in ReportOf(w, pods, listing).live && row.pod.id == pod
    ensures row.orphan && row.classification == UnknownPod
  {
    ReceiptlessFacts(id, pod, now, w);
    row := RowFor(w, Sanitise(id), pods, listing);
  }

  lemma ReceiptlessFacts(id: string, pod: string, now: int, w: World)
    requires id != "" && pod != "" && Reached(ReceiptlessSteps(id, pod, now)) == Some(w)
    ensures Books(w) && Orderly(ReceiptlessSteps(id, pod, now)) && Sanitise(id) in Closed(w) && w.receipts == map[]
    ensures Sanitise(id) in w.runs && w.runs[Sanitise(id)].phase == Phase(BoundTo(pod), Finished(false))
    ensures w.live == {pod} && w.active == None
  {
    ReceiptlessWorld(id, pod, now);
    ClosedAlone(w, Sanitise(id));
    OrderlyOf(ReceiptlessSteps(id, pod, now), w);
  }

  lemma ClosedAlone(w: World, s: string)
    requires w.completions == map[s := s]
    ensures s in Closed(w) && Own(w)
  {
    assert w.completions[s] == s;
  }

  // ---------------------------------------------------------------- crossing in the shared file

  /** Run `a` is down; run `b` writes, records, creates and binds; then `a` completes what the file names. */
  function CrossedSteps(a: string, b: string, podA: string, podB: string, now: int): seq<Step> {
    StartSteps(a, podA, now) + [Teardown(Sanitise(a), podA, true)] + StartSteps(b, podB, now)
      + [CompleteMarker(Sanitise(a), now)]
  }

  predicate TwoRuns(a: string, b: string, podA: string, podB: string) {
    a != "" && b != "" && Sanitise(a) != Sanitise(b) && podA != "" && podB != "" && podA != podB
  }

  lemma CrossedWorld(a: string, b: string, podA: string, podB: string, now: int)
    requires TwoRuns(a, b, podA, podB)
    ensures var r := Reached(CrossedSteps(a, b, podA, podB, now));
            && r.Some? && r.value.live == {podB} && r.value.active == None && r.value.receipts == map[]
            && r.value.runs == map[Sanitise(a) := Run(a, Phase(BoundTo(podA), Finished(false))),
                                   Sanitise(b) := Run(b, Going(BoundTo(podB)))]
            && r.value.completions == map[Sanitise(a) := Sanitise(b)]
  {
    var s0 := StartSteps(a, podA, now);
    StartAlone(a, podA, now);
    KnownPod(Reached(s0).value.runs, Sanitise(a));
    Take(s0, Teardown(Sanitise(a), podA, true));
    var s1 := s0 + [Teardown(Sanitise(a), podA, true)];
    Start(s1, b, podB, now);
    Finishes(s1 + StartSteps(b, podB, now), Sanitise(a), now);
  }

  lemma ClosedCrossed(w: World, a: string, b: string)
    requires a != b && w.completions == map[a := b]
    ensures b in Closed(w) && a !in Closed(w) && !Own(w)
  {
    assert w.completions[a] == b;
  }

  /** Then the live, bound, unreceipted pod of `b` is reported unknown where it should be an abandoned
      intent, and the finished run `a` is reported stale. */
  lemma CrossedIsMisread(a: string, b: string, podA: string, podB: string, now: int, w: World, pods: seq<LivePod>,
                         listing: seq<(string, Intent)>) returns (row: Row)
    requires TwoRuns(a, b, podA, podB) && Reached(CrossedSteps(a, b, podA, podB, now)) == Some(w)
    requires Lists(pods, w.live) && Listing(View(w.disk), listing)
    ensures !Orderly(CrossedSteps(a, b, podA, podB, now))
    ensures row in ReportOf(w, pods, listing).live && row.pod.id == podB
    ensures row.orphan && row.classification == UnknownPod
    ensures Sanitise(b) in w.runs && Trail(w.runs[Sanitise(b)].phase) == AbandonedIntent
    ensures CountStale(ReportOf(w, pods, listing).stale, podA) == 1
  {
    CrossedFacts(a, b, podA, podB, now, w);
    row := CrossedReport(w, Sanitise(a), Sanitise(b), podA, podB, pods, listing);
  }

  lemma CrossedReport(w: World, a: string, b: string, podA: string, podB: string,
                      pods: seq<LivePod>, listing: seq<(string, Intent)>) returns (row: Row)
    requires Books(w) && w.live == {podB} && podA != podB && w.active == None && podB !in w.receipts
    requires a in w.runs && w.runs[a].phase == Phase(BoundTo(podA), Finished(false)) && a !in Closed(w)
    requires b in w.runs && w.runs[b].phase == Going(BoundTo(podB)) && b in Closed(w)
    requires Lists(pods, w.live) && Listing(View(w.disk), listing)
    ensures row in ReportOf(w, pods, listing).live && row.pod.id == podB
    ensures row.orphan && row.classification == UnknownPod
    ensures CountStale(ReportOf(w, pods, listing).stale, podA) == 1
  {
    row := RowFor(w, b, pods, listing);
    BoundIsStale(w, a, pods, listing);
  }

  lemma CrossedFacts(a: string, b: string, podA: string, podB: string, now: int, w: World)
    requires TwoRuns(a, b, podA, podB) && Reached(CrossedSteps(a, b, podA, podB, now)) == Some(w)
    ensures Books(w) && !Orderly(CrossedSteps(a, b, podA, podB, now))
    ensures w.live == {podB} && w.active == None && Sanitise(b) in Closed(w) && Sanitise(a) !in Closed(w)
    ensures w.receipts == map[]
    ensures Sanitise(a) in w.runs && w.runs[Sanitise(a)].phase == Phase(BoundTo(podA), Finished(false))
    ensures Sanitise(b) in w.runs && w.runs[Sanitise(b)].phase == Going(BoundTo(podB))
  {
    CrossedWorld(a, b, podA, podB, now);
    ClosedCrossed(w, Sanitise(a), Sanitise(b));
    OrderlyOf(CrossedSteps(a, b, podA, podB, now), w);
  }

  lemma BoundIsStale(w: World, s: string, pods: seq<LivePod>, listing: seq<(string, Intent)>)
    requires Books(w) && Lists(pods, w.live) && Listing(View(w.disk), listing)
    requires s in w.runs && HasBound(w.runs[s].phase) && s !in Closed(w) && w.runs[s].phase.progress.pod !in w.live
    ensures CountStale(ReportOf(w, pods, listing).stale, w.runs[s].phase.progress.pod) == 1
  {
    AccountedIn(w, pods, listing, s);
  }

  // ---------------------------------------------------------------- one run tears down another's pod

  /** Two runs start up together; `a` reads the identity `b` left, tears that pod down and writes its receipt;
      the provider brings the pod back. */
  function SwappedSteps(a: string, b: string, podA: string, podB: string, now: int): seq<Step> {
    StartSteps(a, podA, now) + StartSteps(b, podB, now)
    + [Teardown(Sanitise(a), podB, true), WriteReceipt(Sanitise(a)), ProviderRevives(podB)]
  }

  lemma SwappedWorld(a: string, b: string, podA: string, podB: string, now: int)
    requires TwoRuns(a, b, podA, podB)
    ensures var r := Reached(SwappedSteps(a, b, podA, podB, now));
            && r.Some? && r.value.live == {podA, podB} && r.value.active == None
            && r.value.receipts == map[podB := true]
            && r.value.runs == map[Sanitise(a) := Run(a, Phase(BoundTo(podA), Receipted(true))),
                                   Sanitise(b) := Run(b, Going(BoundTo(podB)))]
            && r.value.torn == map[Sanitise(a) := podB]
  {
    var s0 := StartSteps(a, podA, now);
    StartAlone(a, podA, now);
    var s1 := s0 + StartSteps(b, podB, now);
    Start(s0, b, podB, now);
    KnownPod(Reached(s1).value.runs, Sanitise(b));
    Take(s1, Teardown(Sanitise(a), podB, true));
    var s2 := s1 + [Teardown(Sanitise(a), podB, true)];
    Take(s2, WriteReceipt(Sanitise(a)));
    var s3 := s2 + [WriteReceipt(Sanitise(a))];
    Take(s3, ProviderRevives(podB));
    assert SwappedSteps(a, b, podA, podB, now) == s3 + [ProviderRevives(podB)];
  }

  lemma KnownPod(runs: map<string, Run>, stem: string)
    requires stem in runs && HasBound(runs[stem].phase)
    ensures runs[stem].phase.progress.pod in BoundPods(runs)
  {
  }

  /** Then the pod of `b`, a run that only bound it, is reported as receipted but alive. */
  lemma SwappedIsMisread(a: string, b: string, podA: string, podB: string, now: int, w: World, pods: seq<LivePod>,
                         listing: seq<(string, Intent)>) returns (row: Row)
    requires TwoRuns(a, b, podA, podB) && Reached(SwappedSteps(a, b, podA, podB, now)) == Some(w)
    requires Lists(pods, w.live) && Listing(View(w.disk), listing)
    ensures !OwnTeardowns(w) && row in ReportOf(w, pods, listing).live && row.pod.id == podB
    ensures row.orphan && row.classification == ReceiptedButAlive
    ensures Sanitise(b) in w.runs && Trail(w.runs[Sanitise(b)].phase) == AbandonedIntent
  {
    SwappedFacts(a, b, podA, podB, now, w);
    row := SwappedReport(w, Sanitise(b), podB, pods, listing);
  }

  lemma SwappedReport(w: World, b: string, podB: string, pods: seq<LivePod>, listing: seq<(string, Intent)>)
    returns (row: Row)
    requires Books(w) && podB in w.live && w.active == None && podB in w.receipts && w.receipts[podB]
    requires b in w.runs && w.runs[b].phase == Going(BoundTo(podB))
    requires Lists(pods, w.live) && Listing(View(w.disk), listing)
    ensures row in ReportOf(w, pods, listing).live && row.pod.id == podB
    ensures row.orphan && row.classification == ReceiptedButAlive
  {
    row := RowFor(w, b, pods, listing);
  }

  lemma SwappedFacts(a: string, b: string, podA: string, podB: string, now: int, w: World)
    requires TwoRuns(a, b, podA, podB) && Reached(SwappedSteps(a, b, podA, podB, now)) == Some(w)
    ensures Books(w) && w.active == None && podB in w.receipts && w.receipts[podB] && !OwnTeardowns(w) && podB in w.live
    ensures Sanitise(b) in w.runs && w.runs[Sanitise(b)].phase == Going(BoundTo(podB))
  {
    SwappedWorld(a, b, podA, podB, now);
    InvHolds(SwappedSteps(a, b, podA, podB, now));
    assert w.torn[Sanitise(a)] == podB;
  }
}
