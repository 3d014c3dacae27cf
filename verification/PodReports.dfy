/** What reconcile reports in every reachable state of the paid runs. */
module PodReports {
  import opened Common
  import opened Intents
  import opened Reconcile
  import opened PodRuns

  // ---------------------------------------------------------------- trails and listings

  /** The marker is still open and names the run's pod. */
  predicate OpenTrail(w: World, stem: string)
    requires stem in w.runs
  {
    HasBound(w.runs[stem].phase) && stem !in Closed(w)
  }

  function Markers(listing: seq<(string, Intent)>): (r: seq<Intent>)
    ensures |r| == |listing|
  {
    seq(|listing|, i requires 0 <= i < |listing| => listing[i].1)
  }

  lemma MarkersOfListing(v: map<string, Intent>, listing: seq<(string, Intent)>)
    requires Listing(v, listing)
    ensures forall i | i in Markers(listing) :: exists s | s in v :: v[s] == i
    ensures forall s | s in v :: v[s] in Markers(listing)
  {
    forall s | s in v ensures v[s] in Markers(listing) {
      var k :| 0 <= k < |listing| && listing[k].0 == s;
      assert Markers(listing)[k] == v[s];
    }
    forall i | i in Markers(listing) ensures exists s | s in v :: v[s] == i {
      var k :| 0 <= k < |listing| && Markers(listing)[k] == i;
      assert listing[k].0 in v && v[listing[k].0] == i;
    }
  }

  lemma TrailHasMarker(v: map<string, Intent>, listing: seq<(string, Intent)>, pod: string) returns (s: string)
    requires Listing(v, listing) && pod in TrailsOf(Markers(listing)).byPod
    ensures s in v && BindsOpen(v[s]) && v[s].podId == Some(pod)
  {
    MarkersOfListing(v, listing);
    TrailsAreConsistent(Markers(listing));
    s :| s in v && v[s] == TrailsOf(Markers(listing)).byPod[pod];
  }

  lemma MarkerHasTrail(v: map<string, Intent>, listing: seq<(string, Intent)>, s: string)
    requires Listing(v, listing) && s in v && BindsOpen(v[s])
    ensures v[s].podId.value in TrailsOf(Markers(listing)).byPod
  {
    MarkersOfListing(v, listing);
    TrailsAreConsistent(Markers(listing));
  }

  lemma PodOfMarker(runs: map<string, Run>, closed: set<string>, v: map<string, Intent>, s: string)
    requires RunsMatchMarkers(runs, closed, v) && s in v && BindsOpen(v[s])
    ensures HasBound(runs[s].phase) && s !in closed && s in Pods(runs) && Pods(runs)[s] == v[s].podId.value
  {
    assert MarkerMatches(runs[s], s in closed, v[s]);
  }

  /** The open intents name exactly the pods of runs that bound one and whose marker nobody completed. */
  lemma TrailsOfRuns(w: World, listing: seq<(string, Intent)>, stem: string)
    requires Books(w) && Listing(View(w.disk), listing) && stem in Pods(w.runs)
    ensures Pods(w.runs)[stem] in TrailsOf(Markers(listing)).byPod <==> OpenTrail(w, stem)
  {
    var v, pod := View(w.disk), Pods(w.runs)[stem];
    if pod in TrailsOf(Markers(listing)).byPod {
      var s := TrailHasMarker(v, listing, pod);
      PodOfMarker(w.runs, Closed(w), v, s);
      assert s == stem;
    }
    if OpenTrail(w, stem) {
      assert MarkerMatches(w.runs[stem], stem in Closed(w), v[stem]) && pod in w.used;
      MarkerHasTrail(v, listing, stem);
    }
  }

  /** A pod that no run owns has no trail at all. */
  lemma ForeignHasNoTrail(w: World, listing: seq<(string, Intent)>, pod: string)
    requires Books(w) && Listing(View(w.disk), listing) && !Owned(w, pod)
    ensures pod !in TrailsOf(Markers(listing)).byPod && pod !in w.receipts
  {
    if pod in TrailsOf(Markers(listing)).byPod {
      var s := TrailHasMarker(View(w.disk), listing, pod);
      PodOfMarker(w.runs, Closed(w), View(w.disk), s);
    }
  }

  /** `pods` is some listing of the account: these ids, in any order. */
  predicate Lists(pods: seq<LivePod>, live: set<string>) {
    (set p | p in pods :: p.id) == live
  }

  function ReportOf(w: World, pods: seq<LivePod>, listing: seq<(string, Intent)>): Report {
    ReconcileSpec(pods, Markers(listing), Claim(w.active), w.receipts)
  }

  lemma ListedUnbound(v: map<string, Intent>, listing: seq<(string, Intent)>, u: Unbound)
    requires Listing(v, listing)
    ensures u in UnboundOf(Markers(listing)) <==>
            exists s | s in v :: IsUnbound(v[s]) && u == Unbound(v[s].requestId, v[s].status)
  {
    MarkersOfListing(v, listing);
    UnboundMembers(Markers(listing));
    if u in UnboundOf(Markers(listing)) {
      var i :| i in Markers(listing) && IsUnbound(i) && u == Unbound(i.requestId, i.status);
      var s :| s in v && v[s] == i;
    }
  }

  lemma UnboundUntilBound(runs: map<string, Run>, closed: set<string>, v: map<string, Intent>,
                          listing: seq<(string, Intent)>, stem: string)
    requires RunsMatchMarkers(runs, closed, v) && Listing(v, listing) && stem in runs
    ensures Unbound(runs[stem].requestId, Requested) in UnboundOf(Markers(listing)) <==>
            !HasBound(runs[stem].phase) && stem !in closed
  {
    ListedUnbound(v, listing, Unbound(runs[stem].requestId, Requested));
    assert MarkerMatches(runs[stem], stem in closed, v[stem]);
    forall s | s in v && v[s].requestId == runs[stem].requestId ensures s == stem {
      assert MarkerMatches(runs[s], s in closed, v[s]);
    }
  }

  lemma ListedIds(pods: seq<LivePod>, live: set<string>)
    requires Lists(pods, live) && "" !in live
    ensures LiveIds(pods) == live
  {
    assert forall p | p in pods :: p.id in (set q | q in pods :: q.id);
  }

  lemma StaleWhileOpen(w: World, pods: seq<LivePod>, listing: seq<(string, Intent)>, stem: string)
    requires Books(w) && Lists(pods, w.live) && Listing(View(w.disk), listing) && stem in Pods(w.runs)
    ensures CountStale(ReportOf(w, pods, listing).stale, Pods(w.runs)[stem])
            == if OpenTrail(w, stem) && Pods(w.runs)[stem] !in w.live then 1 else 0
  {
    var t := TrailsOf(Markers(listing));
    TrailsAreConsistent(Markers(listing));
    TrailsOfRuns(w, listing, stem);
    ListedIds(pods, w.live);
    StaleCount(t.order, t.byPod, w.live, Pods(w.runs)[stem]);
  }

  lemma PodIsReported(w: World, pods: seq<LivePod>, listing: seq<(string, Intent)>, stem: string)
    requires Books(w) && Lists(pods, w.live) && stem in Pods(w.runs)
    ensures var r, pod := ReportOf(w, pods, listing), Pods(w.runs)[stem];
            && ((exists row | row in r.live :: row.pod.id == pod) <==> pod in w.live)
            && ((exists row | row in r.orphans :: row.pod.id == pod) <==> pod in w.live && w.active != Some(pod))
  {
    assert Pods(w.runs)[stem] in w.used;
    ListedIds(pods, w.live);
    RowOfPod(pods, TrailsOf(Markers(listing)).byPod, Claim(w.active), w.receipts, Pods(w.runs)[stem]);
  }

  // ---------------------------------------------------------------- the class of a pod

  /** The class of a live, unclaimed pod, by whether its run bound it, its marker is completed, and what the
      receipts say of it. */
  function ClassOf(bound: bool, closed: bool, receipt: Option<bool>): Classification {
    if bound && !closed && receipt != Some(true) then AbandonedIntent
    else match receipt
      case None => UnknownPod
      case Some(verified) => if verified then ReceiptedButAlive else ReceiptedUnverifiedAlive
  }

  function Receipt(w: World, pod: string): Option<bool> {
    if pod in w.receipts then Some(w.receipts[pod]) else None
  }

  /** What it should be, by how far the run got: receipted once its own receipt verified the teardown, else
      abandoned from the bind until the run finished, else unknown. */
  function Trail(p: Phase): Classification {
    if ReceiptOf(p) == Some(true) then ReceiptedButAlive
    else if HasBound(p) && !p.end.Finished? then AbandonedIntent
    else UnknownPod
  }

  lemma ClassOfRun(w: World, listing: seq<(string, Intent)>, pod: LivePod, s: string)
    requires Books(w) && Listing(View(w.disk), listing) && Claim(w.active) != Some(pod.id)
    requires s in w.runs && PodOf(w.runs[s].phase) == Some(pod.id)
    ensures ClassifyPod(pod, TrailsOf(Markers(listing)).byPod, Claim(w.active), w.receipts).classification
            == ClassOf(HasBound(w.runs[s].phase), s in Closed(w), Receipt(w, pod.id))
  {
    assert s in Pods(w.runs) && Pods(w.runs)[s] == pod.id;
    TrailsOfRuns(w, listing, s);
    ClassByTrail(pod, TrailsOf(Markers(listing)).byPod, Claim(w.active), w.receipts);
  }

  lemma ClassByTrail(pod: LivePod, byPod: map<string, Intent>, active: Option<string>, receipts: map<string, bool>)
    requires active != Some(pod.id)
    ensures ClassifyPod(pod, byPod, active, receipts).classification ==
            ClassOf(pod.id in byPod, false, if pod.id in receipts then Some(receipts[pod.id]) else None)
  {
  }

  lemma ForeignRow(w: World, listing: seq<(string, Intent)>, pod: LivePod)
    requires Books(w) && Listing(View(w.disk), listing) && !Owned(w, pod.id) && Claim(w.active) != Some(pod.id)
    ensures ClassifyPod(pod, TrailsOf(Markers(listing)).byPod, Claim(w.active), w.receipts).classification == UnknownPod
  {
    ForeignHasNoTrail(w, listing, pod.id);
  }

  lemma OrphanFlag(active: Option<string>, pod: LivePod, byPod: map<string, Intent>, receipts: map<string, bool>)
    requires pod.id != ""
    ensures var row := ClassifyPod(pod, byPod, Claim(active), receipts);
            && row.pod == pod && (row.orphan <==> active != Some(pod.id))
              && (row.orphan <==> Claim(active) != Some(pod.id))
            && (!row.orphan ==> row.classification == ActiveOwner)
  {
  }

  lemma LiveHasName(w: World, id: string)
    requires Books(w) && id in w.live
    ensures id != ""
  {
    assert id in w.used;
  }

  /** The row of a live pod: claimed, or an orphan; unknown when no run created it. */
  ghost predicate RowIsSound(w: World, row: Row) {
    && row.pod.id in w.live
    && (row.orphan <==> w.active != Some(row.pod.id))
    && (!row.orphan ==> row.classification == ActiveOwner)
    && (row.orphan && !Owned(w, row.pod.id) ==> row.classification == UnknownPod)
  }

  lemma ReportedRow(w: World, pods: seq<LivePod>, listing: seq<(string, Intent)>, row: Row)
    requires Lists(pods, w.live) && row in ReportOf(w, pods, listing).live
    ensures row.pod.id in w.live
    ensures row == ClassifyPod(row.pod, TrailsOf(Markers(listing)).byPod, Claim(w.active), w.receipts)
  {
    RowsMembers(pods, TrailsOf(Markers(listing)).byPod, Claim(w.active), w.receipts);
    assert row.pod.id in (set p | p in pods :: p.id);
  }

  lemma RowIsSoundOf(w: World, pods: seq<LivePod>, listing: seq<(string, Intent)>, row: Row)
    requires Books(w) && Lists(pods, w.live) && Listing(View(w.disk), listing)
    requires row in ReportOf(w, pods, listing).live
    ensures RowIsSound(w, row)
  {
    ReportedRow(w, pods, listing, row);
    LiveHasName(w, row.pod.id);
    OrphanFlag(w.active, row.pod, TrailsOf(Markers(listing)).byPod, w.receipts);
    if row.orphan && !Owned(w, row.pod.id) {
      ForeignRow(w, listing, row.pod);
    }
  }

  lemma RowOfRun(w: World, pods: seq<LivePod>, listing: seq<(string, Intent)>, row: Row, s: string)
    requires Books(w) && Lists(pods, w.live) && Listing(View(w.disk), listing)
    requires row in ReportOf(w, pods, listing).live && row.orphan
    requires s in w.runs && PodOf(w.runs[s].phase) == Some(row.pod.id)
    ensures row.classification == ClassOf(HasBound(w.runs[s].phase), s in Closed(w), Receipt(w, row.pod.id))
  {
    ReportedRow(w, pods, listing, row);
    LiveHasName(w, row.pod.id);
    OrphanFlag(w.active, row.pod, TrailsOf(Markers(listing)).byPod, w.receipts);
    ClassOfRun(w, listing, row.pod, s);
  }

  /** Every row of the report after any steps, however the runs interleave. */
  lemma EveryRowIsSound(steps: seq<Step>, pods: seq<LivePod>, listing: seq<(string, Intent)>, row: Row)
    requires Reached(steps).Some?
    requires var w := Reached(steps).value; Lists(pods, w.live) && Listing(View(w.disk), listing)
    requires row in ReportOf(Reached(steps).value, pods, listing).live
    ensures var w := Reached(steps).value;
            && RowIsSound(w, row)
            && forall s | row.orphan && s in w.runs && PodOf(w.runs[s].phase) == Some(row.pod.id) ::
                 row.classification == ClassOf(HasBound(w.runs[s].phase), s in Closed(w), Receipt(w, row.pod.id))
  {
    var w := Reached(steps).value;
    InvHolds(steps);
    RowIsSoundOf(w, pods, listing, row);
    forall s | row.orphan && s in w.runs && PodOf(w.runs[s].phase) == Some(row.pod.id)
      ensures row.classification == ClassOf(HasBound(w.runs[s].phase), s in Closed(w), Receipt(w, row.pod.id))
    {
      RowOfRun(w, pods, listing, row, s);
    }
  }

  /** What sets a class off: exactly one of the receipt on file and the run's own receipt is verified; or
      neither is, and a run that finished has its marker open, or a bound run that did not finish has it
      completed, or a receipt that verified nothing is the pod's only trail. */
  predicate Off(p: Phase, closed: bool, receipt: Option<bool>) {
    var filed, own := receipt == Some(true), ReceiptOf(p) == Some(true);
    || filed != own
    || (!filed && if HasBound(p) && !closed then p.end.Finished?
                  else receipt == Some(false) || (HasBound(p) && !p.end.Finished?))
  }

  lemma OffIff(p: Phase, closed: bool, receipt: Option<bool>)
    ensures ClassOf(HasBound(p), closed, receipt) != Trail(p) <==> Off(p, closed, receipt)
  {
  }

  /** However the runs interleave and whichever pods they tear down, the class of a live, unclaimed pod tells
      how far its run got except exactly when it is set off. */
  lemma RowIsOffIff(steps: seq<Step>, w: World, pods: seq<LivePod>, listing: seq<(string, Intent)>, row: Row, s: string)
    requires Reached(steps) == Some(w) && Lists(pods, w.live) && Listing(View(w.disk), listing)
    requires row in ReportOf(w, pods, listing).live && row.orphan
    requires s in w.runs && PodOf(w.runs[s].phase) == Some(row.pod.id)
    ensures row.classification != Trail(w.runs[s].phase) <==>
            Off(w.runs[s].phase, s in Closed(w), Receipt(w, row.pod.id))
  {
    InvHolds(steps);
    RowOfRun(w, pods, listing, row, s);
    OffIff(w.runs[s].phase, s in Closed(w), Receipt(w, row.pod.id));
  }

  /** So when no run recorded its id between another's record and its completion, and every run tore down its
      own pod, the class of every live, unclaimed pod tells how far its run got: unknown before the bind and
      after a completion without a receipt, abandoned up to a verified receipt, receipted but alive from there. */
  lemma EveryRowTellsItsPhase(steps: seq<Step>, w: World, pods: seq<LivePod>, listing: seq<(string, Intent)>, row: Row,
                              s: string)
    requires Reached(steps) == Some(w) && Orderly(steps) && OwnTeardowns(w)
    requires Lists(pods, w.live) && Listing(View(w.disk), listing)
    requires row in ReportOf(w, pods, listing).live && row.orphan
    requires s in w.runs && PodOf(w.runs[s].phase) == Some(row.pod.id)
    ensures row.classification == Trail(w.runs[s].phase)
  {
    RowIsOffIff(steps, w, pods, listing, row, s);
    NothingIsOff(steps, w, s);
  }

  lemma NothingIsOff(steps: seq<Step>, w: World, s: string)
    requires Reached(steps) == Some(w) && Orderly(steps) && OwnTeardowns(w)
    requires s in w.runs && PodOf(w.runs[s].phase).Some?
    ensures !Off(w.runs[s].phase, s in Closed(w), Receipt(w, w.runs[s].phase.progress.pod))
  {
    OrderlyClosed(steps, s);
    OwnReceipt(steps, w, s);
    NotOff(w.runs[s].phase, s in Closed(w));
  }

  lemma OwnReceipt(steps: seq<Step>, w: World, s: string)
    requires Reached(steps) == Some(w) && OwnTeardowns(w) && s in w.runs && PodOf(w.runs[s].phase).Some?
    ensures Receipt(w, w.runs[s].phase.progress.pod) == ReceiptOf(w.runs[s].phase)
  {
    InvHolds(steps);
    assert ReceiptMatches(w.runs[s], w.receipts);
  }

  lemma NotOff(p: Phase, closed: bool)
    requires closed == p.end.Finished?
    ensures !Off(p, closed, ReceiptOf(p))
  {
  }

  // ---------------------------------------------------------------- every run is accounted for

  /** Its live pod is in the report (an orphan unless claimed), its gone pod is listed stale exactly once
      while its marker is open, and its marker is listed unbound exactly until it is bound or completed. */
  ghost predicate Accounted(w: World, r: Report, stem: string)
    requires stem in w.runs
  {
    var phase := w.runs[stem].phase;
    && (PodOf(phase).Some? ==>
          && ((exists row | row in r.live :: row.pod.id == phase.progress.pod) <==> phase.progress.pod in w.live)
          && ((exists row | row in r.orphans :: row.pod.id == phase.progress.pod)
              <==> phase.progress.pod in w.live && w.active != Some(phase.progress.pod))
          && CountStale(r.stale, phase.progress.pod)
             == (if OpenTrail(w, stem) && phase.progress.pod !in w.live then 1 else 0))
    && (Unbound(w.runs[stem].requestId, Requested) in r.unbound <==> !HasBound(phase) && stem !in Closed(w))
  }

  lemma AccountedIn(w: World, pods: seq<LivePod>, listing: seq<(string, Intent)>, stem: string)
    requires Books(w) && Lists(pods, w.live) && Listing(View(w.disk), listing) && stem in w.runs
    ensures Accounted(w, ReportOf(w, pods, listing), stem)
  {
    UnboundUntilBound(w.runs, Closed(w), View(w.disk), listing, stem);
    if PodOf(w.runs[stem].phase).Some? {
      assert stem in Pods(w.runs) && Pods(w.runs)[stem] == w.runs[stem].phase.progress.pod;
      PodIsReported(w, pods, listing, stem);
      StaleWhileOpen(w, pods, listing, stem);
    }
  }

  /** Every run after any steps, dead or alive, however the runs interleave. */
  lemma EveryRunIsAccountedFor(steps: seq<Step>, pods: seq<LivePod>, listing: seq<(string, Intent)>, stem: string)
    requires Reached(steps).Some?
    requires var w := Reached(steps).value; Lists(pods, w.live) && Listing(View(w.disk), listing) && stem in w.runs
    ensures Accounted(Reached(steps).value, ReportOf(Reached(steps).value, pods, listing), stem)
  {
    InvHolds(steps);
    AccountedIn(Reached(steps).value, pods, listing, stem);
  }

  /** When the records are orderly, the phase alone decides: stale from the bind until the run finished,
      unbound until the bind unless it finished without one, and a finished run whose pod is gone leaves nothing. */
  lemma PhaseDecidesTheRest(steps: seq<Step>, pods: seq<LivePod>, listing: seq<(string, Intent)>, stem: string)
    requires Reached(steps).Some? && Orderly(steps)
    requires var w := Reached(steps).value; Lists(pods, w.live) && Listing(View(w.disk), listing) && stem in w.runs
    ensures var w := Reached(steps).value;
            var r, phase := ReportOf(w, pods, listing), w.runs[stem].phase;
            && (PodOf(phase).Some? ==>
                  CountStale(r.stale, phase.progress.pod)
                  == if HasBound(phase) && !phase.end.Finished? && phase.progress.pod !in w.live then 1 else 0)
            && (Unbound(w.runs[stem].requestId, Requested) in r.unbound <==> !HasBound(phase) && !phase.end.Finished?)
  {
    EveryRunIsAccountedFor(steps, pods, listing, stem);
    OrderlyClosed(steps, stem);
  }

  lemma OrderlyClosed(steps: seq<Step>, stem: string)
    requires Reached(steps).Some? && Orderly(steps) && stem in Reached(steps).value.runs
    ensures stem in Closed(Reached(steps).value) <==> Reached(steps).value.runs[stem].phase.end.Finished?
  {
    InvHolds(steps);
    OwnIffOrderly(steps);
    OwnMeansClosedIsFinished(Reached(steps).value, stem);
  }

  // ---------------------------------------------------------------- what bills is reported

  predicate Starts(s: Step, pod: string) {
    s == ProviderRevives(pod) || s == ForeignPod(pod) || (s.CreatePod? && s.newPod == pod)
  }

  /** Only the provider, or a teardown that verified, ends the billing of a pod. */
  predicate Stops(s: Step, pod: string) {
    s == ProviderDrops(pod) || (s.Teardown? && s.target == pod && s.verified)
  }

  /** Something started the pod and nothing stopped it since. */
  predicate Bills(steps: seq<Step>, pod: string) {
    exists k | 0 <= k < |steps| :: Starts(steps[k], pod) && forall i | k < i < |steps| :: !Stops(steps[i], pod)
  }

  lemma BillsSnoc(steps: seq<Step>, pod: string)
    requires steps != []
    ensures var before, last := steps[..|steps| - 1], steps[|steps| - 1];
            Bills(steps, pod) <==> Starts(last, pod) || (Bills(before, pod) && !Stops(last, pod))
  {
    var before, n := steps[..|steps| - 1], |steps| - 1;
    if k :| 0 <= k < |before| && Starts(before[k], pod) && forall i | k < i < |before| :: !Stops(before[i], pod) {
      assert Starts(steps[k], pod) && forall i | k < i < n :: steps[i] == before[i];
    }
    if k :| 0 <= k < |steps| && Starts(steps[k], pod) && forall i | k < i < |steps| :: !Stops(steps[i], pod) {
      if k < n { assert Starts(before[k], pod) && forall i | k < i < n :: before[i] == steps[i]; }
    }
  }

  lemma LiveStep(w: World, s: Step, pod: string)
    requires Enabled(w, s)
    ensures pod in Next(w, s).live <==> Starts(s, pod) || (pod in w.live && !Stops(s, pod))
    ensures Next(w, s).active == if s.SetActive? then s.claim else w.active
  {
  }

  /** After any steps, a pod is live exactly when something started it and neither the provider nor a verified
      teardown stopped it since. */
  lemma {:induction false} LiveIff(steps: seq<Step>, pod: string)
    requires Reached(steps).Some?
    ensures pod in Reached(steps).value.live <==> Bills(steps, pod)
  {
    if steps != [] {
      var before := steps[..|steps| - 1];
      LiveIff(before, pod);
      LiveStep(Reached(before).value, steps[|steps| - 1], pod);
      BillsSnoc(steps, pod);
    }
  }

  /** The last claim made by the active env. */
  function LastClaim(steps: seq<Step>): Option<string> {
    if steps == [] then None
    else if steps[|steps| - 1].SetActive? then steps[|steps| - 1].claim
    else LastClaim(steps[..|steps| - 1])
  }

  lemma {:induction false} ActiveIsLastClaim(steps: seq<Step>)
    requires Reached(steps).Some?
    ensures Reached(steps).value.active == LastClaim(steps)
  {
    if steps != [] {
      ActiveIsLastClaim(steps[..|steps| - 1]);
      LiveStep(Reached(steps[..|steps| - 1]).value, steps[|steps| - 1], "");
    }
  }

  /** However runs interleave and wherever they die: a pod is among the report's orphans exactly when it was
      started, was not stopped since, and the active env does not claim it. */
  lemma OrphanIffBilling(steps: seq<Step>, pods: seq<LivePod>, listing: seq<(string, Intent)>, pod: string)
    requires Reached(steps).Some?
    requires var w := Reached(steps).value; Lists(pods, w.live) && Listing(View(w.disk), listing)
    ensures (exists row | row in ReportOf(Reached(steps).value, pods, listing).orphans :: row.pod.id == pod) <==>
            Bills(steps, pod) && LastClaim(steps) != Some(pod)
  {
    var w := Reached(steps).value;
    InvHolds(steps);
    LiveIff(steps, pod);
    ActiveIsLastClaim(steps);
    ListedIds(pods, w.live);
    RowOfPod(pods, TrailsOf(Markers(listing)).byPod, Claim(w.active), w.receipts, pod);
    if pod in w.live { LiveHasName(w, pod); }
  }

  // ---------------------------------------------------------------- whose request an entry names

  /** Some run has this pod, bound it, and nobody completed its marker. */
  ghost predicate OpenRun(w: World, s: string, pod: string) {
    s in w.runs && PodOf(w.runs[s].phase) == Some(pod) && OpenTrail(w, s)
  }

  lemma IntentOfRun(w: World, listing: seq<(string, Intent)>, i: Intent) returns (s: string)
    requires Books(w) && Listing(View(w.disk), listing) && i in Markers(listing) && BindsOpen(i)
    ensures OpenRun(w, s, i.podId.value) && StaleEntry(i) == Stale(w.runs[s].requestId, i.podId.value, Bound)
  {
    MarkersOfListing(View(w.disk), listing);
    s :| s in View(w.disk) && View(w.disk)[s] == i;
    PodOfMarker(w.runs, Closed(w), View(w.disk), s);
    assert MarkerMatches(w.runs[s], s in Closed(w), View(w.disk)[s]);
  }

  lemma StaleNamesRun(w: World, pods: seq<LivePod>, listing: seq<(string, Intent)>, e: Stale)
    requires Books(w) && Lists(pods, w.live) && Listing(View(w.disk), listing) && e in ReportOf(w, pods, listing).stale
    ensures e.podId !in w.live
    ensures exists s :: OpenRun(w, s, e.podId) && e == Stale(w.runs[s].requestId, e.podId, Bound)
  {
    var first := StaleMeaning(pods, Markers(listing), Claim(w.active), w.receipts);
    var i :| 0 <= i < |first| && ReportOf(w, pods, listing).stale[i] == e;
    var k: nat :| k < |Markers(listing)| && LastBinds(Markers(listing), e.podId, k)
                  && e == StaleEntry(Markers(listing)[k]);
    var s := IntentOfRun(w, listing, Markers(listing)[k]);
    ListedIds(pods, w.live);
  }

  lemma AbandonedNamesRun(w: World, pods: seq<LivePod>, listing: seq<(string, Intent)>, row: Row)
    requires Books(w) && Listing(View(w.disk), listing) && row in ReportOf(w, pods, listing).live
    requires row.classification == AbandonedIntent
    ensures exists s :: OpenRun(w, s, row.pod.id) && row.owner == Some(w.runs[s].requestId)
  {
    RowMeaning(pods, Markers(listing), Claim(w.active), w.receipts, row);
    var k: nat :| LastBinds(Markers(listing), row.pod.id, k) && row.owner == Some(Markers(listing)[k].requestId);
    var s := IntentOfRun(w, listing, Markers(listing)[k]);
  }

  lemma OneRunPerPod(w: World, s: string, t: string, pod: string)
    requires Books(w) && OpenRun(w, s, pod) && t in w.runs && PodOf(w.runs[t].phase) == Some(pod)
    ensures s == t
  {
    assert s in Pods(w.runs) && t in Pods(w.runs) && Pods(w.runs)[s] == Pods(w.runs)[t];
  }

  /** In every reachable state a stale entry is of a pod that is gone and carries its run's request id and the
      status bound, and an abandoned pod's owner is its run's request. */
  lemma EntriesNameTheirRuns(steps: seq<Step>, pods: seq<LivePod>, listing: seq<(string, Intent)>, s: string)
    requires Reached(steps).Some?
    requires var w := Reached(steps).value; Lists(pods, w.live) && Listing(View(w.disk), listing)
    requires s in Reached(steps).value.runs && PodOf(Reached(steps).value.runs[s].phase).Some?
    ensures var w := Reached(steps).value;
            var r, run := ReportOf(w, pods, listing), w.runs[s];
            && (forall e | e in r.stale && e.podId == run.phase.progress.pod ::
                  e == Stale(run.requestId, run.phase.progress.pod, Bound))
            && (forall row | row in r.live && row.pod.id == run.phase.progress.pod
                             && row.classification == AbandonedIntent :: row.owner == Some(run.requestId))
            && (forall e | e in r.stale ::
                  e.podId !in w.live && exists t | t in w.runs :: PodOf(w.runs[t].phase) == Some(e.podId))
  {
    InvHolds(steps);
    NamesRun(Reached(steps).value, pods, listing, s);
  }

  lemma NamesRun(w: World, pods: seq<LivePod>, listing: seq<(string, Intent)>, s: string)
    requires Books(w) && Lists(pods, w.live) && Listing(View(w.disk), listing)
    requires s in w.runs && PodOf(w.runs[s].phase).Some?
    ensures var r, run := ReportOf(w, pods, listing), w.runs[s];
            && (forall e | e in r.stale && e.podId == run.phase.progress.pod ::
                  e == Stale(run.requestId, run.phase.progress.pod, Bound))
            && (forall row | row in r.live && row.pod.id == run.phase.progress.pod
                             && row.classification == AbandonedIntent :: row.owner == Some(run.requestId))
            && (forall e | e in r.stale ::
                  e.podId !in w.live && exists t | t in w.runs :: PodOf(w.runs[t].phase) == Some(e.podId))
  {
    var r, run := ReportOf(w, pods, listing), w.runs[s];
    forall e | e in r.stale
      ensures e.podId !in w.live && exists t | t in w.runs :: PodOf(w.runs[t].phase) == Some(e.podId)
      ensures e.podId == run.phase.progress.pod ==> e == Stale(run.requestId, run.phase.progress.pod, Bound)
    {
      StaleNamesRun(w, pods, listing, e);
      var t :| OpenRun(w, t, e.podId) && e == Stale(w.runs[t].requestId, e.podId, Bound);
      if e.podId == run.phase.progress.pod { OneRunPerPod(w, t, s, e.podId); }
    }
    forall row | row in r.live && row.pod.id == run.phase.progress.pod && row.classification == AbandonedIntent
      ensures row.owner == Some(run.requestId)
    {
      AbandonedNamesRun(w, pods, listing, row);
      var t :| OpenRun(w, t, row.pod.id) && row.owner == Some(w.runs[t].requestId);
      OneRunPerPod(w, t, s, row.pod.id);
    }
  }

  // ---------------------------------------------------------------- the empty report

  predicate EmptyReport(r: Report) {
    r.live == [] && r.stale == [] && r.unbound == []
  }

  /** Nothing bills and every marker is completed. */
  predicate AllClosed(w: World) {
    w.live == {} && forall s | s in w.runs :: s in Closed(w)
  }

  lemma EmptyMeansClosed(w: World, pods: seq<LivePod>, listing: seq<(string, Intent)>)
    requires Books(w) && Lists(pods, w.live) && Listing(View(w.disk), listing)
    requires EmptyReport(ReportOf(w, pods, listing))
    ensures AllClosed(w)
  {
    NothingLive(w, pods, listing);
    forall s | s in w.runs ensures s in Closed(w) {
      AccountedIn(w, pods, listing, s);
      OpenIsListed(w, ReportOf(w, pods, listing), s);
    }
  }

  lemma OpenIsListed(w: World, r: Report, s: string)
    requires s in w.runs && Accounted(w, r, s) && w.live == {} && r.stale == [] && r.unbound == []
    ensures s in Closed(w)
  {
  }

  lemma EmptyIffClosed(w: World, pods: seq<LivePod>, listing: seq<(string, Intent)>)
    requires Books(w) && Lists(pods, w.live) && Listing(View(w.disk), listing)
    ensures EmptyReport(ReportOf(w, pods, listing)) <==> AllClosed(w)
  {
    if EmptyReport(ReportOf(w, pods, listing)) {
      EmptyMeansClosed(w, pods, listing);
    }
    if AllClosed(w) {
      NoRows(w, pods, listing);
      NoStale(w, pods, listing);
      NoUnbound(w, pods, listing);
    }
  }

  lemma ClosedRunsFinished(w: World)
    requires Inv(w) && forall s | s in w.runs :: s in Closed(w)
    ensures Own(w) && forall s | s in w.runs :: w.runs[s].phase.end.Finished?
  {
    assert forall s | s in w.completions :: s in w.runs;
    OwnWhenClosed(w);
    forall s | s in w.runs ensures w.runs[s].phase.end.Finished? {
      OwnMeansClosedIsFinished(w, s);
    }
  }

  /** However the runs interleave, reconcile reports nothing at all exactly when nothing bills, every run
      ever started finished, and no run recorded its id between another's record and its completion. */
  lemma EmptyReportIffAllFinished(steps: seq<Step>, pods: seq<LivePod>, listing: seq<(string, Intent)>)
    requires Reached(steps).Some?
    requires var w := Reached(steps).value; Lists(pods, w.live) && Listing(View(w.disk), listing)
    ensures var w := Reached(steps).value;
            EmptyReport(ReportOf(w, pods, listing)) <==>
            w.live == {} && (forall s | s in w.runs :: w.runs[s].phase.end.Finished?) && Orderly(steps)
  {
    var w := Reached(steps).value;
    InvHolds(steps);
    EmptyIffClosed(w, pods, listing);
    OwnIffOrderly(steps);
    if AllClosed(w) {
      ClosedRunsFinished(w);
    }
    if Own(w) {
      forall s | s in w.runs ensures s in Closed(w) <==> w.runs[s].phase.end.Finished? {
        OwnMeansClosedIsFinished(w, s);
      }
    }
  }

  lemma NothingLive(w: World, pods: seq<LivePod>, listing: seq<(string, Intent)>)
    requires Books(w) && Lists(pods, w.live) && ReportOf(w, pods, listing).live == []
    ensures w.live == {}
  {
    ListedIds(pods, w.live);
    forall id | id in w.live ensures false {
      RowOfPod(pods, TrailsOf(Markers(listing)).byPod, Claim(w.active), w.receipts, id);
    }
  }

  lemma NoRows(w: World, pods: seq<LivePod>, listing: seq<(string, Intent)>)
    requires Lists(pods, w.live) && w.live == {}
    ensures ReportOf(w, pods, listing).live == []
  {
    if ReportOf(w, pods, listing).live != [] {
      ReportedRow(w, pods, listing, ReportOf(w, pods, listing).live[0]);
    }
  }

  lemma NoStale(w: World, pods: seq<LivePod>, listing: seq<(string, Intent)>)
    requires Books(w) && AllClosed(w) && Listing(View(w.disk), listing)
    ensures ReportOf(w, pods, listing).stale == []
  {
    TrailsAreConsistent(Markers(listing));
    NoTrails(w, listing);
    NoTrailsNoStale(TrailsOf(Markers(listing)), LiveIds(pods));
  }

  lemma NoTrails(w: World, listing: seq<(string, Intent)>)
    requires Books(w) && AllClosed(w) && Listing(View(w.disk), listing)
    ensures forall p :: p !in TrailsOf(Markers(listing)).byPod
  {
    forall p ensures p !in TrailsOf(Markers(listing)).byPod {
      ClosedHasNoTrail(w, listing, p);
    }
  }

  lemma ClosedHasNoTrail(w: World, listing: seq<(string, Intent)>, pod: string)
    requires Books(w) && AllClosed(w) && Listing(View(w.disk), listing)
    ensures pod !in TrailsOf(Markers(listing)).byPod
  {
    if pod in TrailsOf(Markers(listing)).byPod {
      var s := TrailHasMarker(View(w.disk), listing, pod);
      PodOfMarker(w.runs, Closed(w), View(w.disk), s);
    }
  }

  lemma NoTrailsNoStale(t: Trails, liveIds: set<string>)
    requires (forall p | p in t.order :: p in t.byPod) && forall p :: p !in t.byPod
    ensures StaleOf(t.order, t.byPod, liveIds) == []
  {
    assert forall i | 0 <= i < |t.order| :: t.order[i] in t.order;
  }

  lemma NoUnbound(w: World, pods: seq<LivePod>, listing: seq<(string, Intent)>)
    requires Books(w) && AllClosed(w) && Listing(View(w.disk), listing)
    ensures ReportOf(w, pods, listing).unbound == []
  {
    forall s | s in View(w.disk) ensures !IsUnbound(View(w.disk)[s]) {
      ClosedIsNotUnbound(w.runs, Closed(w), View(w.disk), s);
    }
    NoneListedUnbound(View(w.disk), listing);
  }

  lemma ClosedIsNotUnbound(runs: map<string, Run>, closed: set<string>, v: map<string, Intent>, s: string)
    requires RunsMatchMarkers(runs, closed, v) && s in runs && s in closed
    ensures !IsUnbound(v[s])
  {
    assert MarkerMatches(runs[s], true, v[s]);
  }

  lemma NoneListedUnbound(v: map<string, Intent>, listing: seq<(string, Intent)>)
    requires Listing(v, listing) && forall s | s in v :: !IsUnbound(v[s])
    ensures UnboundOf(Markers(listing)) == []
  {
    var unbound := UnboundOf(Markers(listing));
    if unbound != [] {
      ListedUnbound(v, listing, unbound[0]);
    }
  }
}
